# BES_os components, modelled and verified

This project models components of the BES_os kernel and its second-stage boot loader in Dafny, and proves what they
promise. Each file is one module for one component or one layer of it.

| module | component |
|---|---|
| `Machine` | 8-bit and 32-bit values of the target, and words in memory |
| `Qsort` | `qsort`, whose pivot is a pointer into the array that it sorts |
| `Utf8`, `LongNames`, `ShortNames` | long and short file names of the kernel's FAT driver, and UTF-16 to UTF-8 |
| `Calendar` | Unix time to dates and back |
| `KernelHeap` | the first-fit heap with headers in front of its blocks, and the page heap |
| `AllocatorLayout`, `PageAllocator`, `BitmapOverlap` | the page bitmap with lists of blocks and global counters, in the memory that they share |
| `Paging` | page tables of two levels |
| `FatTable`, `FatFiles`, `FatLayout` | the boot loader's cache of the file allocation table, reading along cluster chains, and where both are on the disk |
| `Gadget`, `PrintInteger`, `IntegerLayout`, `FormatString`, `FormatLayout`, `FormatSpelling`, `FormatPieces`, `FormatMeaning`, `FormatPrecision` | `printf`: what the loop does, and what a format means to its caller |
| `Itoa` | numbers to text and back |
| `Cells`, `CursesWindow`, `Clear`, `Scroll`, `AddCh`, `AddChStr`, `Border`, `Overlay`, `Resize` | curses windows and what draws on them |
| `Refresh`, `Packets`, `Update`, `Runs`, `Glyphs` | bringing windows to the screen |

An object that the source updates in place is a class, and each of its operations is a method proved against a function
of the old state, about which lemmas say what it means. A line pointer of a curses window is modelled by the identity of
its buffer together with what the buffer holds; a write through a pointer then changes one row, which is right because
no two rows ever share a buffer (`Scroll.PointersStayApart`).

The central results:

- Whatever windows are made, drawn on, resized and shown or left unshown, a refresh of one that no other was laid over
  makes the physical screen show all of it and nothing else (`Runs.EveryRunShows`, `Update.Screen.WRefresh`), although
  only what is marked is compared and only what differs is written (`Update.Screen.DoUpdate`); what a place shows is told
  by the bits of its cell (`Glyphs.UpdatedGlyphs`). Windows laid over each other are seen in the order in which they are
  copied out (`Runs.LayersAreSeen`), and exactly when one must be touched for that is stated (`Runs.CopyLeavesExactly`).
- A read of a file gives the bytes of its cluster chain, and two reads are one (`FatFiles.FileSystem.Read`,
  `FatFiles.FileSystem.ReadTwice`); where on the disk they are, and which entries make the chain, is told without the
  code's functions (`FatLayout.FileByte`, `FatLayout.EntryOnDisk`).
- A format prints its texts as they are, and each conversion a numeral of its own argument in the base of its letter, set
  as its flags and width say, exactly when the buffer is large enough (`FormatPieces.FormatPrints`,
  `FormatMeaning.SpecMeans`, `FormatPrecision.PreciseSpecMeans`).
- Names, dates, 8.3 names and numbers go through the code and back unchanged, exactly when the stated condition holds.
- The heap's bookkeeping agrees with its memory in every reachable state (`KernelHeap.Layout`), the page allocator's as
  long as pages are taken by bits that are the bitmap's own (`PageAllocator.Accounts`), and the page tables agree with a
  flat map.

## Where the code does less than it seems to promise

The model follows the code. Where a member is named, it proves when the promise holds and when it does not, or what holds
instead; the other items are part of the model only.

- `qsort` passes `i - 1` as a `size_t`. When the first record is strictly before all others, or there is none, the
  bound wraps and the sort leaves the array (`Qsort.Qsort`). In long-name assembly this happens when the entry of order
  1 is presented first (`LongNames.WhichPresentationsWork`).
- The test for the filler unit 0xFFFF compares an `int16_t` and never holds; a name ends at NUL or with its entries.
- A surrogate pair is combined and then overwritten by its first half (`Utf8.DecodeOfEncodeAll`).
- An entry of 12 bits that straddles the end of the cached window takes its second byte from the field behind it
  (`FatTable.FoundEverywhere`).
- The 32-character buffer cuts long binary numbers, long precisions and long zero padding
  (`IntegerLayout.PrintedIsLayout`, `FormatPrecision.PrecisePrinted`).
- The digits of a precision are read but not passed over, so that they are printed
  (`FormatString.PrecisionDigitIsPrinted`).
- A format that ends after flags or width makes the loop step past its end (`FormatString.OverrunsExactly`).
- A date before 1970 becomes a time as if it were in 1970 (`Calendar.FromUnixOfToUnix`, `Calendar.ToUnixClosed`).
- The spaces behind an extension are never trimmed, because the loop starts at the terminator
  (`ShortNames.GetName`).
- `sprintf` into a buffer stores no NUL, because a buffer gadget has file -1, and `GetName` stores one a byte too far for
  a name without an extension (`ShortNames.FormattedHolds`).
- End marks of FAT32 chains are compared without masking the upper four bits, so that a directory without a size is read
  on behind its chain on most volumes; files have a size and are not concerned (`FatFiles.Volume.TerminatedOrGoesOn`).
- A range at the top of the address space can make the mapping loop endless (`Paging.EndsExactly`).
- `calloc` does not look whether its product wraps, and then clears more than it asked for; whether that leaves the block
  depends on the block (`KernelHeap.ClearedExactly`, `KernelHeap.ClearedOutside`, `KernelHeap.WrappedButInside`).
- The page bitmap is given a quarter of the bytes that its bits need, and the page records follow. So most bits lie in
  records: with the configured number of pages, 217 are set after `mm_init` although one page is counted
  (`AllocatorLayout.SharesRecordExactly`, `BitmapOverlap.CountedExactly`, `BitmapOverlap.ConfiguredAfterInit`), the first
  block marks a page (`BitmapOverlap.FirstBlockMarksPage`), and once the own bits are used up the next page that is
  allocated changes another page's record (`BitmapOverlap.NextPageStoresIntoRecord`).
- The descriptors of neighboring pages are 3072 descriptors apart where 3072 bytes were meant, so that those of most pages
  lie in the heap (`PageAllocator.DescriptorsBelowHeapExactly`), and a page that has used up its slots stores over the
  next page's (`BitmapOverlap.SlotsRunOut`).
- A window that is refreshed over another one is not noted in the other, which then shows only where the two agree or it
  was changed (`Runs.CopyLeavesExactly`); a resized window is not tested against the screen
  (`Runs.ResizedWithinExactly`).
- The count of used bytes drifts: a new block counts four bytes more than freeing it gives back, and a freed block that is
  larger than asked for gives back more than was counted (`KernelHeap.UsedBack`).
- `wchgat` with a count of 0 can leave an empty interval, and the end of an interval may be stale while its begin says
  that nothing changed; both are part of the invariant.

## Model

| member | source | states |
|---|---|---|
| `Qsort.QsortInternal` | src/kernel/stdlib.c:11-47 | Sorts records left..right for every total preorder, keeps the others, and stays in the array exactly when `StaysInside` holds, although the pivot record changes under the pointer at the first exchange |
| `Qsort.Qsort` | src/kernel/stdlib.c:49-55 | The result is a sorted rearrangement if and only if the input is one record or has a later record that may precede the first; otherwise the `size_t` bound wraps and the sort leaves the array; in every case no record is lost |
| `Qsort.WholeRange` | src/kernel/stdlib.c:49-55 | The condition on the bounds that the first call passes, in terms of the input alone |
| `Qsort.StrictlyOrderedInputLeaves` | src/kernel/stdlib.c:45-45 | A family of inputs that the sort leaves the array on: two or more records in strict order |
| `Qsort.Partition` | src/kernel/stdlib.c:21-43 | One partition leaves two parts that may stand in this order, and rearranges only the range |
| `Qsort.ScanUp` | src/kernel/stdlib.c:27-28 | The first scan stops at the first record that is not strictly before the pivot, if there is one |
| `Qsort.ScanDown` | src/kernel/stdlib.c:29-30 | The second scan stops at the last record that the pivot is not strictly before |
| `Qsort.SwapRecords` | src/kernel/stdlib.c:35-40 | The byte-wise exchange is the exchange of two records and touches no other byte of the array |
| `Qsort.SwapStep` | src/kernel/stdlib.c:34-42 | An exchange extends both sides of the partition whichever record the pivot pointer then shows |
| `Qsort.ScansMeet` | src/kernel/stdlib.c:27-32 | Inside the range neither scan passes the records already placed on the other side |
| `Qsort.Assemble` | src/kernel/stdlib.c:45-46 | Two sorted parts of a split range are the sorted range |
| `Qsort.LeftPartInside` | src/kernel/stdlib.c:45-45 | After a split the left call leaves the array exactly when the whole range does |
| `Qsort.RecordsIndex` | src/kernel/stdlib.c:35-40 | Record k of the byte array is its k-th stretch of `size` bytes |
| `Utf8.CodepointToUtf8` | src/kernel/string.c:350-414 | Writes the bytes of the form of one to four bytes, for values up to 0x1FFFFF, at the position and moves past them; nothing for larger values, and the lowest byte of a negative one |
| `Utf8.Utf16ToCodepoint` | src/kernel/string.c:335-348 | The code point is always the first unit, also for a surrogate pair, whose combination is overwritten |
| `Utf8.DecodeOfEncodeAll` | src/kernel/string.c:350-414 | A strict decoder by section 3 of RFC 3629 gives back the units if and only if none is a surrogate |
| `Utf8.EncodeAllBound` | src/kernel/string.c:350-414 | The text of n units takes at most 3n bytes |
| `Utf8.DecodeOfEncode` | src/kernel/string.c:350-414 | Every value up to 0x1FFFFF is read back by that decoder if and only if it is a code point that may be encoded, four-byte forms included |
| `Utf8.Examples` | src/kernel/string.c:350-414 | The examples of section 7 of RFC 3629, byte by byte |
| `LongNames.LFNBlock.Load` | src/kernel/fs/fat32/fat32.c:27-33 | The thirteen units of an entry, from its three stretches |
| `LongNames.UnitsAre` | src/kernel/fs/fat32/fat32.c:27-33 | The thirteen units by the numbers of their bytes, low byte first |
| `LongNames.OrdersArePreorder` | src/kernel/fs/fat32/fat32.c:286-291 | The comparison of entries is a total preorder |
| `LongNames.SpellBlock` | src/kernel/fs/fat32/fat32.c:315-327 | One block of units appended as UTF-8, or the end of the name at NUL; the test for 0xFFFF on an `int16_t` never holds |
| `LongNames.Spell` | src/kernel/fs/fat32/fat32.c:306-332 | The buffer holds the text of all entries up to the first NUL unit, ended by NUL |
| `LongNames.GetLfn` | src/kernel/fs/fat32/fat32.c:293-333 | Sorts the entries and leaves the text that the sorted entries spell, if the sort stays inside; nothing else than a NUL for a count of 0 or less |
| `LongNames.GetLfnDeliversName` | src/kernel/fs/fat32/fat32.c:293-333 | For every name without NUL, cut into entries and presented in any order that the sort can work on, the text is the whole name, and decodes to it if it has no surrogate |
| `LongNames.WhichPresentationsWork` | src/kernel/fs/fat32/fat32.c:304-304 | The sort stays inside if and only if there is one entry or the first one presented is not that of order 1 |
| `LongNames.SortedIsUnique` | src/kernel/fs/fat32/fat32.c:286-304 | Whatever order the entries come in, sorting gives them in the order of the name |
| `LongNames.CutSpells` | src/kernel/fs/fat32/fat32.c:308-330 | The entries of a name, in order, spell the name |
| `LongNames.EveryNameHasACut` | src/kernel/fs/fat32/fat32.c:27-33 | Every name of 1 to 819 units can be cut into entries |
| `ShortNames.GetShortName` | src/kernel/fs/fat32/fat32.c:36-59 | The eleven bytes: base and extension in upper case, filled up with spaces |
| `ShortNames.GetName` | src/kernel/fs/fat32/fat32.c:61-98 | Prints the trimmed base, and a dot and the extension if there is one, which is never trimmed; `sprintf` stores no NUL, so that the text ends where it should if and only if there is an extension or the byte behind the base was NUL before; else it is the base and that byte |
| `ShortNames.FormattedHolds` | src/kernel/fs/fat32/fat32.c:87-97 | The same for any name and any contents of the output: which C string is left, and exactly when it is the name |
| `ShortNames.StaleByteShows` | src/kernel/fs/fat32/fat32.c:87-97 | A concrete name that is left with one byte of the old output behind it |
| `ShortNames.ShortNameRoundTrip` | src/kernel/fs/fat32/fat32.c:36-98 | Packing what unpacking leaves gives back the eleven bytes if and only if they are in upper case without NUL and the base has no dot, whatever the output held before; blanks anywhere survive |
| `ShortNames.ShortIsClean` | src/kernel/fs/fat32/fat32.c:36-59 | What packing makes of any name has that form |
| `ShortNames.TrimFrom` | src/kernel/fs/fat32/fat32.c:70-84 | Trailing spaces are cut, and only they |
| `ShortNames.ToUpperIs` | src/kernel/fs/fat32/fat32.c:47-57 | Small letters become capital ones, and every other character stays |
| `ShortNames.ShortIs` | src/kernel/fs/fat32/fat32.c:36-59 | Byte by byte what becomes of a base and an extension: eight and three characters, in upper case, and spaces |
| `ShortNames.IgnoresCase` | src/kernel/fs/fat32/fat32.c:36-59 | Names that differ in case only have one 8.3 form |
| `ShortNames.DottedIs` | src/kernel/fs/fat32/fat32.c:61-98 | The dotted form of a name without NUL: its first eight bytes without the spaces at their end, a dot, and the last three |
| `Calendar.UnixToDatetime` | src/kernel/time.c:61-93 | The fields form a valid date whose time is the argument, for every time whose year fits an `int`; `ToUnixClosed` says which time that is |
| `Calendar.DatetimeToUnix` | src/kernel/time.c:20-59 | The seconds from 1970 of the date, modulo 2^64 |
| `Calendar.TakeYears` | src/kernel/time.c:72-79 | The year loop ends in the year that contains the day |
| `Calendar.TakeMonths` | src/kernel/time.c:81-88 | The month loop never leaves 1..12 and ends in the month that contains the day |
| `Calendar.ToUnixOfFromUnix` | src/kernel/time.c:20-93 | To-time after from-time is the identity, and every from-time is a valid date from 1970 on |
| `Calendar.FromUnixOfToUnix` | src/kernel/time.c:20-93 | From-time after to-time is the identity on a valid date if and only if its year is 1970 or later |
| `Calendar.ToUnixMonotone` | src/kernel/time.c:20-59 | Of two valid dates from 1970 on, the earlier one has the smaller time, and conversely |
| `Calendar.FromUnixMonotone` | src/kernel/time.c:61-93 | Of two times, the smaller one has the earlier date, and conversely |
| `Calendar.DaysBeforeYearClosed` | src/kernel/drivers/CMOS.c:140-145 | Days before a year in closed form, under the rule that every fourth year is a leap year |
| `Calendar.DaysBeforeMonthClosed` | src/kernel/time.c:9-18 | Days before a month in closed form, without the table |
| `Calendar.MonthLength` | src/kernel/time.c:9-18 | The length of each month in closed form, with February by the leap rule |
| `Calendar.ToUnixClosed` | src/kernel/time.c:20-59 | The time of every valid date as arithmetic in its six fields, without table or loop |
| `Calendar.YearFits` | src/kernel/time.c:72-79 | The year of a time fits an `int` if and only if the time is before the year 2^31 |
| `Calendar.NoWrap` | src/kernel/time.c:20-59 | No valid date whose year fits an `int` wraps 64 bits |
| `Calendar.BeforeIsLess` | src/kernel/time.c:20-59 | An earlier date has a smaller time |
| `KernelHeap.Heap.Malloc` | src/kernel/allocator/malloc.c:75-146 | First fit, zeroed, all else unchanged; the outcome is null, a payload, the panic, or the one case where the 32-bit bound check wraps |
| `KernelHeap.Heap.Search` | src/kernel/allocator/malloc.c:80-117 | The walk finds the first freed block that is large enough |
| `KernelHeap.OutcomeWhere` | src/kernel/allocator/malloc.c:80-135 | Where a request is served: 8 bytes behind a header, of the first freed block that fits or of a new one at the end, which is followed by 4 free bytes |
| `KernelHeap.HeaderBytes` | src/kernel/allocator/malloc.c:97-128 | A header by its bytes: the status first, the size in the last four, lowest byte first |
| `KernelHeap.UsedBack` | src/kernel/allocator/malloc.c:45-133 | After `malloc` and `free` the count of used bytes is back if and only if a freed block of exactly that size was taken; a new block leaves 4 more counted, and a larger one takes its difference off |
| `KernelHeap.Heap.Free` | src/kernel/allocator/malloc.c:42-47 | Only the status byte of the block changes, and its size and header are counted as free |
| `KernelHeap.Heap.ClientStore` | src/kernel/allocator/malloc.c:75-146 | A store of a client into its own live block keeps every header |
| `KernelHeap.Heap.Calloc` | src/kernel/allocator/malloc.c:148-158 | A block for the product modulo 2^32, zero as far as `malloc` and the clearing reach; the heap stays valid unless `size` is more than the block that is handed out, which can be a freed one larger than the product |
| `KernelHeap.ClearedExactly` | src/kernel/allocator/malloc.c:148-158 | The clearing ends inside the block that is handed out if and only if `size` is at most the size of that block |
| `KernelHeap.ClearedInside` | src/kernel/allocator/malloc.c:148-158 | For a product that does not wrap, the outcome is that of `malloc` |
| `KernelHeap.ClearedOutside` | src/kernel/allocator/malloc.c:148-158 | A concrete product that wraps to 2, with which the clearing leaves a new block |
| `KernelHeap.WrappedButInside` | src/kernel/allocator/malloc.c:148-158 | A concrete product that wraps while the freed block that is first fit has room for the clearing |
| `KernelHeap.Heap.constructor` | src/kernel/allocator/malloc.c:19-29 | The heap after `mmInit` |
| `KernelHeap.Heap.PMalloc` | src/kernel/allocator/malloc.c:61-73 | The first free page of the page heap, marked; 0 if all are in use |
| `KernelHeap.Heap.PFree` | src/kernel/allocator/malloc.c:49-59 | The page is free again; addresses outside the page heap change nothing |
| `KernelHeap.Layout` | src/kernel/allocator/malloc.c:75-146 | In every reachable state the header walk meets exactly the blocks and ends at `last_alloc`; blocks are disjoint and end below the heap's end |
| `KernelHeap.WalkMeetsBlocks` | src/kernel/allocator/malloc.c:81-117 | The walk with stride size + header + 4 lands on the block headers only |
| `KernelHeap.ServesWhatFits` | src/kernel/allocator/malloc.c:119-124 | The panic comes if and only if no freed block fits and there is no room at the end |
| `KernelHeap.FirstFitIs` | src/kernel/allocator/malloc.c:80-117 | First fit is the least index of a freed block that is large enough |
| `KernelHeap.BlocksDisjoint` | src/kernel/allocator/malloc.c:75-146 | Two blocks of the chain have no byte in common |
| `KernelHeap.ChangesApartFromLive` | src/kernel/allocator/malloc.c:75-146 | What is written lies outside all other live payloads |
| `AllocatorLayout.SharesRecordExactly` | src/kernel/allocator/memory_allocator.c:50-65 | A bit of the bitmap lies in a page record if and only if it is not one of the first 8 * (pages / 32 + 1) |
| `AllocatorLayout.AllOwnExactly` | src/kernel/allocator/memory_allocator.c:50-65 | The bitmap has bytes of its own for all bits if and only if there are at most eight pages |
| `AllocatorLayout.AddressesAre` | src/kernel/allocator/memory_allocator.c:50-81 | The addresses of bits, records, descriptors and data by their numbers |
| `AllocatorLayout.MarkedInWord` | src/kernel/allocator/memory_allocator.c:111-114 | The bit that is modelled in a byte is bit `q % 32` of word `q / 32`, as the code reads it |
| `AllocatorLayout.CountAfterFlip` | src/kernel/allocator/memory_allocator.c:99-108 | One bit changes the number of marked pages by one |
| `AllocatorLayout.DescriptorStore` | src/kernel/allocator/memory_allocator.c:225-281 | A store into one block descriptor changes no bit, no page record and no other descriptor |
| `PageAllocator.Allocator.constructor` | src/kernel/allocator/memory_allocator.c:38-96 | The state after `mm_init`, in one memory: no block, one page counted, and of the bitmap's own bits only that of page 0 set; the page records hold what the loop stores, over the other bits |
| `PageAllocator.Allocator.SetBit` | src/kernel/allocator/memory_allocator.c:99-102 | One bit of the bitmap is set, and no other bit changes |
| `PageAllocator.Allocator.ClearBit` | src/kernel/allocator/memory_allocator.c:105-108 | One bit of the bitmap is cleared, and no other bit changes |
| `PageAllocator.Allocator.AllocatePageWithIndex` | src/kernel/allocator/memory_allocator.c:116-133 | A page that is not marked is marked, counted and given a record, a marked one is refused; all stays in order if the bit is one of the bitmap's own |
| `PageAllocator.Allocator.AllocatePage` | src/kernel/allocator/memory_allocator.c:141-161 | The first page that is not marked, or none; as long as fewer pages are counted than the bitmap has own bits, and only then, the page is marked by one of these |
| `PageAllocator.TakenIs` | src/kernel/allocator/memory_allocator.c:116-133 | A page that is taken has an empty record with the number of pages counted before, and its bit is set |
| `PageAllocator.ReleasedIs` | src/kernel/allocator/memory_allocator.c:164-179 | A page that is released keeps its list and count, its process becomes -1, and its bit is clear |
| `PageAllocator.OwnBitFound` | src/kernel/allocator/memory_allocator.c:141-161 | The first clear bit is one of the bitmap's own if and only if fewer pages are counted than there are such bits |
| `PageAllocator.Allocator.HeapAlloc` | src/kernel/allocator/memory_allocator.c:225-281 | The descriptor, the pointer to it and the count are stored, and size 0 gives NULL; the block becomes the first of its page, at the heap's end and in a slot above the others, if the page is marked by an own bit, a slot is left and the heap pointer does not wrap |
| `PageAllocator.Allocator.FreePage` | src/kernel/allocator/memory_allocator.c:164-179 | The page is unmarked and its record is free, except page 0; all stays in order if it has no blocks |
| `PageAllocator.Allocator.FindBlock` | src/kernel/allocator/memory_allocator.c:291-322 | Following the pointers in memory finds the descriptor of the block whose data is at the argument, and the one before it |
| `PageAllocator.Allocator.Unlink` | src/kernel/allocator/memory_allocator.c:298-309 | The block leaves its list, and no other list and no own bit changes |
| `PageAllocator.Allocator.HeapFree` | src/kernel/allocator/memory_allocator.c:284-323 | The block at the pointer leaves the list, a page other than 0 is unmarked when it has no block left, and no other page is |
| `PageAllocator.Allocator.ClientStore` | src/kernel/allocator/memory_allocator.c:225-281 | A client's store into its own block keeps all in order unless the byte belongs to a descriptor in use |
| `PageAllocator.Accounts` | src/kernel/allocator/memory_allocator.c:99-323 | In every state that is reached while pages are only taken by own bits, the counters equal the sums over the lists and the own bits, each record counts its list, data regions are disjoint, slots decrease along each list, and only marked pages have blocks |
| `PageAllocator.TakenAllOk` | src/kernel/allocator/memory_allocator.c:116-133 | Taking a page by an own bit keeps this |
| `PageAllocator.ReleasedAllOk` | src/kernel/allocator/memory_allocator.c:164-179 | So does freeing a page without blocks |
| `PageAllocator.PushedAllOk` | src/kernel/allocator/memory_allocator.c:225-281 | So does a new block that has room |
| `PageAllocator.UnlinkedAllOk` | src/kernel/allocator/memory_allocator.c:298-309 | So does taking a block out, in front of a list or further on |
| `PageAllocator.ClientStoreAllOk` | src/kernel/allocator/memory_allocator.c:225-281 | So does a client's store to the heap that hits no descriptor in use |
| `PageAllocator.DescriptorsBelowHeapExactly` | src/kernel/allocator/memory_allocator.c:70-81 | The descriptors of a page lie below the heap if and only if it is one of the first twelfth of the pages, because their distance is counted in descriptors and the heap's in bytes |
| `PageAllocator.LowPagesAreSafe` | src/kernel/allocator/memory_allocator.c:70-81 | If only these pages have blocks, no store to the heap hits a descriptor in use |
| `PageAllocator.PushKeepsApart` | src/kernel/allocator/memory_allocator.c:256-263 | A block at the heap's end overlaps none |
| `BitmapOverlap.InitialBits` | src/kernel/allocator/memory_allocator.c:50-96 | After `mm_init` a bit that is not the bitmap's own is set if and only if it lies in the process number of a page other than 0 |
| `BitmapOverlap.CountedExactly` | src/kernel/allocator/memory_allocator.c:38-96 | After `mm_init` the counter equals the number of set bits if and only if there are at most 216 pages, or 224 |
| `BitmapOverlap.ConfiguredAfterInit` | src/kernel/allocator/memory_allocator.c:38-96 | With the 1024 pages of the configuration, 217 bits are set and 264 are the bitmap's own; bit 424 is the lowest that should not be set |
| `BitmapOverlap.FirstBlockMarksPage` | src/kernel/allocator/memory_allocator.c:225-281 | There the first block on page 0 marks page 296 |
| `BitmapOverlap.TakenStoresIntoRecord` | src/kernel/allocator/memory_allocator.c:116-133 | Taking a page by a bit that is not an own one changes the record of another page |
| `BitmapOverlap.NextPageStoresIntoRecord` | src/kernel/allocator/memory_allocator.c:141-161 | When all own bits are used up, and only then, the next page that is allocated changes the record of another page |
| `BitmapOverlap.SlotsRunOut` | src/kernel/allocator/memory_allocator.c:237-254 | When the slots of a page are used up, its next descriptor is stored over the first one of the page behind it |
| `Paging.AddressSpace.constructor` | src/kernel/allocator/paging.c:91-101 | The state before the first mapping: an empty directory |
| `Paging.AddressSpace.AllocPageTable` | src/kernel/allocator/paging.c:22-31 | The next table, zeroed; all else unchanged |
| `Paging.AddressSpace.EnsureTable` | src/kernel/allocator/paging.c:56-60 | A table where there was none, which changes no translation |
| `Paging.AddressSpace.MapPage` | src/kernel/allocator/paging.c:53-63 | One page mapped, all others as before, at most one table more |
| `Paging.WalkIs` | src/kernel/allocator/paging.c:53-63 | What an address translates to is what the processor finds by its upper 10, next 10 and last 12 bits, and by the present and write bits of both entries |
| `Paging.EntryIs` | src/kernel/allocator/paging.c:59-63 | An entry has the address of its frame, the present bit and the write bit, and no other bit |
| `Paging.AddressSpace.MapRange` | src/kernel/allocator/paging.c:48-65 | Exactly the pages of the range are mapped to consecutive frames and may be written, tables stay distinct and writable, whatever was mapped before |
| `Paging.AlignedRangeTranslates` | src/kernel/allocator/paging.c:48-65 | After mapping an aligned range every address in it translates to its physical address and may be written, and every other one is as before |
| `Paging.EndsExactly` | src/kernel/allocator/paging.c:48-65 | The mapping loop ends if and only if the page counter does not step over the end of the range at the top of the address space |
| `Paging.NeverEnds` | src/kernel/allocator/paging.c:48-65 | Otherwise every value that the wrapping counter ever takes is below the end |
| `Paging.NeverEndsInLastPage` | src/kernel/allocator/paging.c:48-65 | A concrete call whose loop does not end |
| `Paging.CounterSteps` | src/kernel/allocator/paging.c:55-64 | The counter begins at the start of the range and takes steps of one page modulo 2^32 |
| `Paging.AlignedRangeEnds` | src/kernel/allocator/paging.c:48-65 | For aligned ranges the loop ends |
| `Paging.WholeRangeMapped` | src/kernel/allocator/paging.c:48-65 | For other ranges all of the range is mapped if and only if its start offset and size do not reach one page further |
| `Paging.NewTableKeeps` | src/kernel/allocator/paging.c:22-31 | A new table keeps all translations |
| `Paging.StoreKeeps` | src/kernel/allocator/paging.c:63-63 | A store to one entry keeps all other translations |
| `FatTable.FatCache.NextCluster` | src/bootloader/stage2/fat.c:254-301 | The cache stays equal to five sectors of the table, and the result is the entry decoded from them |
| `FatTable.FatCache.ReadFat` | src/bootloader/stage2/fat.c:125-128 | The cache holds the five sectors from the index on |
| `FatTable.FatCache.Load` | src/bootloader/stage2/fat.c:268-275 | The cache is filled again exactly when the sector is not in it |
| `FatTable.FoundEverywhere` | src/bootloader/stage2/fat.c:254-301 | From every cache position the entry found is the one on disk if and only if it cannot straddle the end of the window, or the byte behind the window happens to decode to the same |
| `FatTable.DecodeOfPacked` | src/bootloader/stage2/fat.c:280-289 | Decoding inverts 12-bit packing for odd and even clusters |
| `FatTable.FoundInCache` | src/bootloader/stage2/fat.c:277-298 | What is decoded from the cache is what is decoded from the window on disk |
| `FatLayout.EntryOnDisk` | src/bootloader/stage2/fat.c:254-301 | For tables of 12, 16 and 32 bits: if the disk holds the entries, lowest byte first, what is read for a cluster is its entry, with the end marks of narrow tables widened |
| `FatLayout.LookupIsEntry` | src/bootloader/stage2/fat.c:254-301 | So it is through the cache, wherever that stands, for an entry that is found everywhere |
| `FatLayout.EntriesMakeChain` | src/bootloader/stage2/fat.c:346-358 | Clusters that follow each other by the entries on the disk are a chain that files are read along |
| `FatLayout.ClustersAdjoin` | src/bootloader/stage2/fat.c:209-212 | Cluster 2 begins at the data region, and every other one where the one before it ends |
| `FatLayout.ClusterStart` | src/bootloader/stage2/fat.c:209-212 | Where a cluster begins on a volume whose sector numbers do not wrap |
| `FatLayout.ClustersApart` | src/bootloader/stage2/fat.c:209-212 | Two clusters of such a volume share no sector |
| `FatLayout.FileByte` | src/bootloader/stage2/fat.c:303-371 | Byte k of a file is found by counting sectors and clusters from the start of the data region |
| `FatLayout.ReadByte` | src/bootloader/stage2/fat.c:303-371 | What a read stores, byte by byte, as bytes of the disk |
| `FatLayout.ContiguousSectors` | src/bootloader/stage2/fat.c:303-371 | A file in clusters 2, 3, 4 and so on is the first sectors of the data region |
| `FatLayout.ContiguousRead` | src/bootloader/stage2/fat.c:303-371 | And a read of it is a slice of them |
| `FatLayout.FirstClusterHalves` | src/bootloader/stage2/fat.c:231-240 | The first cluster of a file has the two halves that its entry says |
| `FatLayout.DirectoryBit` | src/bootloader/stage2/fat.c:231-240 | A file is a directory if and only if bit 4 of its attributes is set |
| `FatFiles.FileSystem.Read` | src/bootloader/stage2/fat.c:303-371 | The bytes from the position on, as many as asked for and left, at the place in the output, and all else of it unchanged; of a file with a size nothing is asked of the entry of its last cluster; a directory without one ends with a terminated chain |
| `FatFiles.FileSystem.ReadTwice` | src/bootloader/stage2/fat.c:303-371 | A read of a and then one of b bytes leave count, position, stored bytes and untouched output as one read of a + b does |
| `FatFiles.StoredGrows` | src/bootloader/stage2/fat.c:319-327 | Two parts of a file stored one behind the other are one part |
| `FatFiles.Volume.TerminatedOrGoesOn` | src/bootloader/stage2/fat.c:353-358 | Reading stops behind a chain if and only if its last entry is 0xFFFFFFF8 or more; otherwise the chain goes on with whatever it holds |
| `FatFiles.Volume.UsualEndMarkGoesOn` | src/bootloader/stage2/fat.c:291-298 | The usual 32-bit end marks, which leave the upper four bits clear, end no chain |
| `FatFiles.FileSystem.NextSector` | src/bootloader/stage2/fat.c:346-365 | The sector after the current one in the cluster chain; behind the chain it ends if and only if the chain is terminated |
| `FatFiles.FileSystem.TakeSome` | src/bootloader/stage2/fat.c:319-367 | One turn of the loop: what is left of the buffer or of the request |
| `FatFiles.FileSystem.OpenEntry` | src/bootloader/stage2/fat.c:214-252 | A free slot is opened at position 0 of the chain, with its first sector read; the other slots are unchanged; none if all are open |
| `FatFiles.FileSystem.FreeSlot` | src/bootloader/stage2/fat.c:216-229 | The first slot that is not open |
| `FatFiles.FileSystem.SetUp` | src/bootloader/stage2/fat.c:231-250 | The fields of a newly opened file |
| `FatFiles.FileSystem.Close` | src/bootloader/stage2/fat.c:378-389 | The slot is free again |
| `FatFiles.BytesExist` | src/bootloader/stage2/fat.c:303-371 | The sectors of a chain have a content |
| `FatFiles.BytesUnique` | src/bootloader/stage2/fat.c:303-371 | They have only one |
| `FatFiles.StoredMeans` | src/bootloader/stage2/fat.c:319-325 | What a read leaves in the output, in terms of slices |
| `Gadget.OutputGadget.PutChar` | src/kernel/printfDriver/printf.c:244-264 | The position counts every character; the buffer or file takes it only while there is room |
| `Gadget.BufferHolds` | src/kernel/printfDriver/printf.c:244-264 | A buffer holds the characters that fit, and is unchanged from its limit on |
| `Gadget.SmallerHoldsPrefix` | src/kernel/printfDriver/printf.c:244-264 | Of two buffers put the same characters, the smaller one holds the first characters of the larger one |
| `PrintInteger.PutReversed` | src/kernel/printfDriver/printf.c:298-325 | The text backwards, padded to the width |
| `PrintInteger.StorePrefix` | src/kernel/printfDriver/printf.c:359-391 | The alternative prefix, in place of padding where there is some |
| `PrintInteger.StoreZeros` | src/kernel/printfDriver/printf.c:341-350 | Leading zeros up to a length, as far as the buffer has room |
| `PrintInteger.Finalize` | src/kernel/printfDriver/printf.c:331-407 | Padding, prefix and sign of a number in the buffer |
| `PrintInteger.StoreDigits` | src/kernel/printfDriver/printf.c:437-442 | The digits, lowest first, as many as the buffer has room for |
| `PrintInteger.PrintUnsigned` | src/kernel/printfDriver/printf.c:413-446 | What one number prints, for every base, precision, width and flags |
| `IntegerLayout.PrintedIsLayout` | src/kernel/printfDriver/printf.c:329-446 | For every combination of flags that the loop passes without a precision, a number is printed as sign, prefix, padding and digits of the right length if and only if it fits the 32-character buffer |
| `IntegerLayout.NumbersFit` | src/kernel/printfDriver/printf.c:415-442 | Every 64-bit value fits in bases 8, 10 and 16; in base 2 one of 32 bits, or of 30 with a prefix |
| `IntegerLayout.NumeralReadsBack` | src/kernel/printfDriver/printf.c:437-442 | The digits printed read back as the value |
| `IntegerLayout.UnfittingIsNot` | src/kernel/printfDriver/printf.c:329-446 | A number that does not fit loses digits, sign, prefix or zeros |
| `IntegerLayout.PrefixShape` | src/kernel/printfDriver/printf.c:359-391 | Padding taken back makes room for the prefix, neither more nor less |
| `FormatString.ParseFlags` | src/kernel/printfDriver/printf.c:966-997 | The flags of a specifier, in any order and number |
| `FormatString.ReadNumber` | src/kernel/string.c:204-214 | The number at a position, modulo 2^32, and the position behind it |
| `FormatString.ParseWidth` | src/kernel/printfDriver/printf.c:1028-1046 | A width in digits, or from an argument whose sign sets the left flag |
| `FormatString.OverrunsExactly` | src/kernel/printfDriver/printf.c:999-1378 | The loop steps past the end of the format if and only if it reaches a `%` with nothing but flags and a width behind it, and at least one of them |
| `FormatString.TurnsAlike` | src/kernel/printfDriver/printf.c:1013-1378 | Where a specifier ends, and whether the loop oversteps there, depends on the format alone |
| `FormatString.SafeEnding` | src/kernel/printfDriver/printf.c:1013-1378 | A format whose last character is neither flag nor digit is never overstepped |
| `FormatString.PercentFiveOversteps` | src/kernel/printfDriver/printf.c:1013-1378 | A concrete format that is |
| `FormatString.PrecisionDigitIsPrinted` | src/kernel/printfDriver/printf.c:1048-1065 | The digits of a precision are not passed over: the first one is printed as if it were the conversion letter, and the rest is text |
| `FormatString.IntegerArgumentIs` | src/kernel/printfDriver/printf.c:1194-1243 | An integer argument is congruent to the one passed, modulo the size of its length field, and lies in the range of that size, with or without sign |
| `FormatString.PutInteger` | src/kernel/printfDriver/printf.c:1147-1245 | What an integer conversion prints |
| `FormatString.PutString` | src/kernel/printfDriver/printf.c:1293-1332 | What a string conversion prints, cut by a precision and padded; `(null)` for a null pointer |
| `FormatString.PutPointer` | src/kernel/printfDriver/printf.c:1334-1342 | What a pointer conversion prints; `(nil)` for a null pointer |
| `FormatString.PutConverted` | src/kernel/printfDriver/printf.c:1145-1376 | What any conversion letter prints |
| `FormatString.FormatLoop` | src/kernel/printfDriver/printf.c:999-1378 | What is printed depends on format and arguments only, whatever room the output has; and whether the loop steps past the end of the format |
| `FormatString.FormatInto` | src/kernel/printfDriver/printf.c:1401-1405 | For every format that is not overstepped, the position counts all characters, the buffer holds those that fit, and is otherwise unchanged |
| `FormatString.FormatTwice` | src/kernel/printfDriver/printf.c:1401-1405 | Truncation is a prefix: for every format that is not overstepped, any two capacities end at the same position, and the smaller buffer holds the first characters of the larger one |
| `FormatLayout.ConversionIsLayout` | src/kernel/printfDriver/printf.c:1022-1245 | Any integer conversion in any format, without a precision, prints the layout of its argument if and only if that fits the buffer |
| `FormatLayout.PointerIsLayout` | src/kernel/printfDriver/printf.c:1334-1342 | A pointer that is not null is always laid out as it should be |
| `FormatLayout.ParsedPlain` | src/kernel/printfDriver/printf.c:1022-1142 | Without a precision, no specifier sets the precision, pointer or upper case flags |
| `FormatSpelling.SpelledParses` | src/kernel/printfDriver/printf.c:1022-1142 | Flags in any order and number, a width in digits or a star, a starred precision, any length and a letter, wherever in a format they are written, are read as they were meant |
| `FormatSpelling.SpelledPrints` | src/kernel/printfDriver/printf.c:999-1378 | A conversion as it is written prints the layout of its argument, if and only if that fits the buffer |
| `FormatSpelling.FlagsRead` | src/kernel/printfDriver/printf.c:966-997 | Flags are read one after the other, whichever they are |
| `FormatSpelling.WithAllMeans` | src/kernel/printfDriver/printf.c:966-997 | The flags that are set are those whose characters occur |
| `FormatPieces.FormatPrints` | src/kernel/printfDriver/printf.c:999-1378 | A format of texts and conversions prints the texts as they are and for each conversion what it prints alone, with the arguments in order, and ends there |
| `FormatPieces.TextIsCopied` | src/kernel/printfDriver/printf.c:1013-1020 | Text without `%` is copied |
| `FormatMeaning.UnsignedPrints` | src/kernel/printfDriver/printf.c:1147-1245 | What `%x`, `%X`, `%o`, `%b` and `%u` print reads back in base 16, 16, 8, 2 and 10 as the argument, without leading zeros, in lower case but for `X` |
| `FormatMeaning.SignedPrints` | src/kernel/printfDriver/printf.c:1147-1245 | What `%d` and `%i` print reads back in base 10 as the signed argument, with `-` exactly before a negative one |
| `FormatMeaning.SpecMeans` | src/kernel/printfDriver/printf.c:1147-1245 | An integer conversion with any flags, width and length prints such a numeral of its argument, with the sign or prefix of its letter, padded with spaces on either side or with zeros before the digits, if and only if the 32 characters of the buffer are enough |
| `FormatMeaning.NumeralIs` | src/kernel/printfDriver/printf.c:437-442 | The digits that are printed for a letter are a numeral in its base |
| `FormatMeaning.ArgumentsTaken` | src/kernel/printfDriver/printf.c:1028-1376 | A star, a precision and a letter take one argument each |
| `FormatMeaning.CharSpecMeans` | src/kernel/printfDriver/printf.c:1268-1291 | `%c` prints the low byte of its argument, set in the width |
| `FormatMeaning.StringSpecMeans` | src/kernel/printfDriver/printf.c:1293-1332 | `%s` prints its text or the first characters of it, set in the width, and `(null)` for a null pointer |
| `FormatMeaning.PointerMeans` | src/kernel/printfDriver/printf.c:1334-1342 | `%p` prints `0x` and hexadecimal digits in a width of 10, and `(nil)` for a null pointer |
| `FormatMeaning.OthersMean` | src/kernel/printfDriver/printf.c:1344-1376 | Any other letter, `%` among them, prints itself, and `%n` prints nothing |
| `FormatPrecision.PreciseSpecMeans` | src/kernel/printfDriver/printf.c:1194-1243 | With a precision: at least so many digits, none of its own for 0, no zeros for the width, and an octal prefix only where no zero stands; if and only if the buffer takes all of it, or all but a space that padding replaces |
| `FormatPrecision.PrecisePrinted` | src/kernel/printfDriver/printf.c:329-446 | The same for every number, base, precision and width |
| `Itoa.ToText` | src/kernel/string.c:159-180 | The numeral in the base, most significant digit first, ended by NUL; the rest of the buffer unchanged |
| `Itoa.PutDigits` | src/kernel/string.c:167-172 | The digits, lowest first, at least one |
| `Itoa.ReverseInPlace` | src/kernel/string.c:174-179 | The exchange of the ends reverses the text in place |
| `Itoa.NumberReadsBack` | src/kernel/string.c:159-214 | What `itoa` writes in base 10, `atou_return` reads back, for every 32-bit number |
| `CursesWindow.Window.constructor` | src/kernel/curses/window.c:5-104 | A new window: blank background, all rows marked, one buffer for each row |
| `CursesWindow.WithRowMarks` | src/kernel/curses/clear.c:23-29 | A change of one row keeps the window in shape, and is marked if the row marks it |
| `CursesWindow.MarksTransitive` | src/kernel/curses/refresh.c:27-68 | Operations that mark what they change, one after the other, mark what they change together |
| `CursesWindow.MarksKeepTracks` | src/kernel/curses/refresh.c:27-68 | An operation that marks what it changes keeps the window's record of its differences from the screen image |
| `Cells.ColorOfCombined` | src/kernel/curses/border.c:10-37 | A character is written in its own color, else in that of the window, else in the background's |
| `Cells.OthersOfCombined` | src/kernel/curses/border.c:10-37 | Its other attributes are its own, the window's unless it has a color, and the background's, together |
| `Cells.TextOfShown` | src/kernel/curses/addch.c:88-113 | A blank takes the text of the background, any other character its own |
| `Cells.CombinedIs` | src/kernel/curses/border.c:10-37 | The combined attributes by their bits |
| `Cells.ShownIs` | src/kernel/curses/addch.c:88-113 | What is shown for a character by its bits: text, color, and other attributes |
| `Clear.ClrToEol` | src/kernel/curses/clear.c:5-33 | The rest of the cursor's row is background, and marked to the end |
| `Clear.ClrToBot` | src/kernel/curses/clear.c:42-69 | The rest of the window is background; the cursor is back where it was |
| `Clear.Erase` | src/kernel/curses/clear.c:78-86 | All of the window is background, the cursor at its top left |
| `Clear.Move` | src/kernel/curses/move.c:33-44 | The cursor goes to a place inside the window, or stays |
| `Clear.ClearedToBottomIs` | src/kernel/curses/clear.c:42-69 | Background from the cursor on, row by row, and all else as it was |
| `Scroll.TouchLine` | src/kernel/curses/touch.c:24-41 | The rows are marked throughout, unless they reach over the window |
| `Scroll.TouchWin` | src/kernel/curses/touch.c:6-22 | All rows are marked throughout |
| `Scroll.TouchedIs` | src/kernel/curses/touch.c:6-41 | Exactly the rows that are touched are marked throughout |
| `Scroll.Scrl` | src/kernel/curses/scroll.c:3-49 | The scroll happens if the window scrolls and n is not 0, and is the one that `ScrolledIs` describes |
| `Scroll.ScrollOne` | src/kernel/curses/scroll.c:28-43 | The line pointers move one place, and the row that comes in is blanked |
| `Scroll.ScrolledIs` | src/kernel/curses/scroll.c:3-49 | The region is shifted by n rows, all blank if n reaches its height, and marked throughout; other rows are as they were; the line pointers are the old ones in another order |
| `Scroll.ScrolledByIs` | src/kernel/curses/scroll.c:28-43 | n single lines of scrolling are one shift by n |
| `Scroll.PointersStayApart` | src/kernel/curses/scroll.c:28-43 | Whatever is scrolled, no two rows share a buffer |
| `AddCh.AddChar` | src/kernel/curses/addch.c:4-162 | The window after any character: printed, tab, line feed, backspace, return, delete, or shown with a caret |
| `AddCh.AddCell` | src/kernel/curses/addch.c:88-154 | A printed character with the attributes of window and background, wrap and scroll included |
| `AddCh.AddTab` | src/kernel/curses/addch.c:32-43 | Blanks up to the next tab stop, or to the start of a line |
| `AddCh.PutCell` | src/kernel/curses/addch.c:120-132 | The cell is stored and marked if it differs |
| `AddCh.GoToNextLine` | src/kernel/curses/addch.c:136-149 | The next line; at the end of the region a scroll, or an error that leaves the cursor |
| `AddCh.AddedTextIs` | src/kernel/curses/addch.c:114-154 | One cell changes, or all rows of the region move up with it, and the cursor goes on |
| `AddCh.AddedCellsAre` | src/kernel/curses/addch.c:32-43 | Cells that stay in the row fill the columns that they pass, and nothing else changes |
| `AddCh.TabIs` | src/kernel/curses/addch.c:32-43 | A tab blanks up to the next multiple of the tab size and moves the cursor there |
| `AddCh.PartsAreCells` | src/kernel/curses/addch.c:72-86 | The characters that a control character is shown by are not control characters |
| `AddCh.AddedCh` | src/kernel/curses/addch.c:4-162 | Every character keeps the cursor in the window and marks what it changes |
| `AddCh.CharactersAre` | src/kernel/curses/addch.c:22-85 | Which character is which by its code: 10, 13, 8 and 9 move, the others below 32 and 127 are shown with a caret, all else is printed |
| `AddCh.NextLineIs` | src/kernel/curses/addch.c:136-149 | A step to the next line goes down a row, or moves the region up by one row and blanks its last, or fails without a change |
| `AddCh.LineFeedIs` | src/kernel/curses/addch.c:45-61 | A line feed blanks the rest of the row and goes to the next line |
| `AddCh.MovesAre` | src/kernel/curses/addch.c:63-70 | A return goes to the start of the row, a backspace one column back |
| `AddCh.PairIs` | src/kernel/curses/addch.c:72-84 | The two characters of a control character stand side by side |
| `AddCh.AddedCellsWrap` | src/kernel/curses/addch.c:33-42 | Blanks of a tab that reach the last column fill the row to its end and stop at the next line |
| `AddChStr.AddChNStr` | src/kernel/curses/addchstr.c:5-48 | A string of cells from the cursor on, to its end, to the count, or to the end of the row |
| `AddChStr.StoredAllHolds` | src/kernel/curses/addchstr.c:25-42 | The row holds the string from the cursor on, and is otherwise as it was |
| `AddChStr.StoredAllMarks` | src/kernel/curses/addchstr.c:25-45 | The interval that is kept along the way covers all that changed |
| `AddChStr.AddedStrIs` | src/kernel/curses/addchstr.c:5-48 | Cell by cell: the string up to its first 0, the count and the end of the row, and all else as it was |
| `Border.DrawBorder` | src/kernel/curses/border.c:39-87 | Sides, top, bottom and corners, the last one drawn where they fall together, with the attributes of the window; all rows marked |
| `Border.CornersComplete` | src/kernel/curses/border.c:61-76 | The loops and the corners together leave the cells of a border, and the inside as it was |
| `Border.BorderedMarks` | src/kernel/curses/border.c:61-82 | A border keeps the rows apart and marks what it changes |
| `Border.HLine` | src/kernel/curses/border.c:104-133 | n cells to the right of the cursor, or as many as there are, marked |
| `Border.VLine` | src/kernel/curses/border.c:162-190 | n cells down from the cursor, or as many as there are, each marked |
| `Border.ColumnPutIs` | src/kernel/curses/border.c:175-185 | Only the cursor's column of these rows changes |
| `Border.ChgAt` | src/kernel/curses/attr.c:195-225 | Other attributes for n cells or the rest of the row, the text kept; for n = 0 an empty interval may be left |
| `Border.HLinedIs` | src/kernel/curses/border.c:104-133 | Exactly the n columns from the cursor on, as far as there are so many, take the cell |
| `Border.VLinedIs` | src/kernel/curses/border.c:162-190 | Exactly the n rows from the cursor down, as far as there are so many, take the cell |
| `Border.BorderIs` | src/kernel/curses/border.c:39-87 | Each given cell stands in its corner or along its edge, and the inside is as it was |
| `Border.ThinBorderIs` | src/kernel/curses/border.c:61-76 | In a window of one row or column the bottom, the right side and their corners stay |
| `Border.PassedIs` | src/kernel/curses/border.c:10-37 | A given cell by its bits, or the default if it is 0: its text, and the attributes that it gets |
| `Border.DefaultsAre` | src/kernel/curses/border.c:52-59 | The default cells are line-drawing characters, by their codes |
| `Border.AttributesChangedAre` | src/kernel/curses/attr.c:195-225 | The cells from the cursor on take the new attributes and keep their text; all else stays |
| `Border.NewAttributesAre` | src/kernel/curses/attr.c:203-203 | The new attributes by their bits |
| `Overlay.CopyWin` | src/kernel/curses/overlay.c:8-73 | The rectangle copied row by row, `lc` carried from row to row |
| `Overlay.CopiedRowsAre` | src/kernel/curses/overlay.c:31-70 | Inside the rectangle the source's cell, or under an overlaid blank the old one; outside nothing |
| `Overlay.CopiedCellsAre` | src/kernel/curses/overlay.c:36-53 | The first and the last changed column of a row |
| `Overlay.CopyOverlap` | src/kernel/curses/overlay.c:75-128 | The part of the screen that lies in both windows is copied |
| `Overlay.OverlappedIs` | src/kernel/curses/overlay.c:75-128 | Exactly the cells that lie where the source lies on the screen take its cell at that place |
| `Overlay.CopyRectangle` | src/kernel/curses/overlay.c:144-170 | As much as the source has and the rectangle takes; refused when the rectangle is not in the destination |
| `Overlay.CopiedRectangleIs` | src/kernel/curses/overlay.c:144-170 | Cell by cell what `copywin` does, from any corner to any corner |
| `Resize.NewWin` | src/kernel/curses/window.c:116-138 | A window if and only if it lies on the screen and memory is granted, erased |
| `Resize.NewIs` | src/kernel/curses/window.c:5-138 | The place, the size, where 0 is all that is left of the screen, the cursor, the settings, and blanks throughout |
| `Resize.ErasedIs` | src/kernel/curses/clear.c:78-86 | Every cell of an erased window is background and marked |
| `Resize.NewTracks` | src/kernel/curses/window.c:116-138 | So a new window tracks any screen image that it lies on |
| `Resize.ResizeWindow` | src/kernel/curses/window.c:327-415 | The window has the new size, in place, if memory is granted; otherwise it is as it was |
| `Resize.ResizedIs` | src/kernel/curses/window.c:363-405 | The common top left rectangle is kept, the rest is background, cursor and margins are in range, every cell is marked |
| `Resize.ResizedTracks` | src/kernel/curses/window.c:363-405 | So a resized window tracks any screen image that it lies on |
| `Resize.SettingsAre` | src/kernel/curses/window.c:368-405 | Attributes, background and settings stay; cursor and margins stay where there is room for them |
| `Refresh.NoutRefresh` | src/kernel/curses/refresh.c:6-80 | The image after the marked part of each row, trimmed, has been copied; the window is clean |
| `Refresh.CopiedOutIs` | src/kernel/curses/refresh.c:25-78 | For a tracked window that is the same as painting all of it: the image shows the window where it lies, is otherwise as it was, has marked what changed, and has the window's cursor unless that is left |
| `Refresh.RowsCopiedAre` | src/kernel/curses/refresh.c:27-68 | The same after each number of rows |
| `Refresh.TrimmedAway` | src/kernel/curses/refresh.c:40-44 | What is trimmed from an interval is on the image already |
| `Packets.Video.NewPacket` | src/kernel/curses/BESOS/pdcdisp.c:48-154 | A stretch of the line shows the cells, with the font character of line-drawing cells, in one color byte; which that is, `Glyphs.ShowsGlyph` says |
| `Packets.Video.TransformLine` | src/kernel/curses/BESOS/pdcdisp.c:159-183 | The line shows the run, written in packets that cover it once, each of equal attributes, none of which could be longer |
| `Update.FindRun` | src/kernel/curses/refresh.c:127-142 | A run begins and ends with a changed cell, has no two unchanged cells in a row, and ends with the columns or before two unchanged cells |
| `Update.SkipUnchanged` | src/kernel/curses/refresh.c:155-156 | The unchanged cells behind a run are stepped over |
| `Update.Screen.WriteLine` | src/kernel/curses/refresh.c:107-157 | The line shows the image and is recorded as written, if not all of it had to be written in runs as short as they may be, with two cells or more between them |
| `Update.Screen.UpdateLine` | src/kernel/curses/refresh.c:101-162 | The line is up to date and clean, and no other line changes |
| `Update.Screen.DoUpdate` | src/kernel/curses/refresh.c:82-175 | Screen, what was written last and image agree, no line is marked, and all else is as it was, for any contents and for both branches; without clearing everything the runs are as short as they may be and apart |
| `Update.Screen.WRefresh` | src/kernel/curses/refresh.c:177-197 | The screen shows the window where it lies, and elsewhere what the image had; both are clean and tracked again, the cursor is where the window has it, and the whole new state is that of copying out and updating; a window that is to be cleared and as large as the screen is shown whatever the screen showed before |
| `Update.Screen.WRefreshImage` | src/kernel/curses/refresh.c:188-196 | Refreshing the image itself writes everything again, whatever the screen shows |
| `Update.MarksKeepTracked` | src/kernel/curses/refresh.c:48-62 | An image that marks what changes keeps its record of differences from what was written last |
| `Update.ShownFits` | src/kernel/curses/refresh.c:82-175 | After an update screen, image and record fit together, and nothing is left to do |
| `Update.NextApart` | src/kernel/curses/refresh.c:127-157 | What is written behind a run is apart from it by two cells or more |
| `Glyphs.ShowsGlyph` | src/kernel/curses/BESOS/pdcdisp.c:97-109 | What a cell of a text and attributes shows: for seven bits of text in the alternate character set the character of the table, for any other the low byte of the text; in the color of the attributes without bit 16 |
| `Glyphs.GlyphText` | src/kernel/curses/BESOS/pdcdisp.c:97-109 | The same by the value of the text: below 128 the line-drawing character or the character itself, from there on its low byte |
| `Glyphs.GlyphColor` | src/kernel/curses/BESOS/pdcdisp.c:48-95 | The color byte depends on the attributes alone, and not on the character set |
| `Glyphs.UpdatedGlyphs` | src/kernel/curses/refresh.c:82-175 | After `doupdate` every place of the screen shows the glyph of the cell that the image has there |
| `Glyphs.DisplayedGlyph` | src/kernel/curses/BESOS/pdcdisp.c:97-109 | So does every place of which a run says what it displays |
| `Glyphs.LineIsDrawn` | src/kernel/curses/border.c:104-133 | A line that `whline` draws with its own character is shown by the line-drawing character of the table |
| `Runs.RunsMark` | src/kernel/curses/refresh.c:27-68 | Every run of drawing calls keeps cursor and margins in range and marks each cell that it changes |
| `Runs.RunThenRefresh` | src/kernel/curses/refresh.c:177-197 | After every run, copying the window out shows all of it and leaves the rest of the image as it was |
| `Runs.StartOk` | src/kernel/curses/initscr.c:121-129 | The screen without windows, and to be written in full, is where runs begin |
| `Runs.Happened` | src/kernel/curses/refresh.c:6-197 | Whatever happens to windows that may overlap, each of them stays in order and the image has marked where it differs from what the screen shows |
| `Runs.BesideStaysTracked` | src/kernel/curses/refresh.c:27-68 | Copying one window out, in step or not, takes nothing from a window beside it |
| `Runs.CopyLeavesExactly` | src/kernel/curses/refresh.c:27-68 | Copying out one of two windows leaves the other one in step if and only if they agree on each common place that is not marked in the other |
| `Runs.TouchedTracks` | src/kernel/curses/touch.c:6-22 | Touching a window on the screen puts it in step, whatever has happened before |
| `Runs.ResizedWithinExactly` | src/kernel/curses/window.c:342-405 | A resized window lies on the screen if and only if its place and new size do, which the code does not test |
| `Runs.EventKeepsStep` | src/kernel/curses/refresh.c:6-197 | A window in step stays so when any other is drawn on, touched, made or resized, when the screen is updated, and when one beside it or one that agrees with it is copied out |
| `Runs.RunKeepsStep` | src/kernel/curses/refresh.c:6-197 | So it does over every run of such events |
| `Runs.EveryRunShows` | src/kernel/curses/refresh.c:177-197 | After every such run `wrefresh` of the window makes the physical screen show all of it, and elsewhere what the image had |
| `Runs.TouchedShows` | src/kernel/curses/refresh.c:177-197 | After every run at all, touching and refreshing a window on the screen shows all of it |
| `Runs.LayersAreSeen` | src/kernel/curses/refresh.c:6-175 | After every run, windows copied out one after the other, each touched before or in step, and one update make each place of the screen show the last of them that covers it |
| `Runs.RunKeepsTidy` | src/kernel/curses/refresh.c:6-197 | Over a run that lays no window over another or over the edge, all windows stay in step |
| `Runs.AllWindowsShown` | src/kernel/curses/refresh.c:6-175 | After such a run, copying all windows out and updating once makes the screen show every cell of every window, without touching any |

## Left out

- Hardware and what the code does not see: ports, disks that fail, interrupts, the boot process, `pagingEnable`, the
  hardware cursor. A disk is a function from sector numbers to sectors, and every read of it succeeds.
- Logging, shell, system calls, the virtual file system, drivers, and the user programs.
- The kernel driver's `FAT_ReadClusters`, `FAT_NextCluster` and directory search: they read the same structures as the
  boot loader's, with the reserved sectors not counted when the cache is filled.
- Reading the root directory and comparing names in directories (`FAT_FindFile`, `FAT_ReadEntry`, `FAT_Open`).
- Floating-point conversions of `printf`: their text is a parameter. `%n` takes its argument and prints nothing; its
  store is not modelled. The character count of one call stays below 2^32.
- `strtok`, the environment table and the other helpers of the string and standard libraries: easy members.
- Subwindows, pads, `endwin`, soft keys, colors, mouse and keyboard,
  insertion and deletion of lines and characters. `_immed` and `_sync` are off, so that `PDC_sync` does nothing.
- The mapping of attributes to a color byte and the table of line-drawing characters are parameters. The display through
  the BIOS is empty in the code.
- Line buffers and intervals of a window are sequences that the methods reassign, so aliasing between a window and a
  subwindow cannot be expressed.
- Bits of the page bitmap are set and cleared in the byte that they lie in (`AllocatorLayout.MarkedInWord`); that the code
  stores the other three bytes of the word back as they were is not modelled.
- KernelHeap.Heap.Malloc: says nothing about the state after a request for which the 32-bit bound check wraps, because
  the code then writes outside the heap.
- KernelHeap.Heap.Calloc: says nothing about the state after its clearing has left the block, or after the bound check of
  `malloc` has wrapped.
- PageAllocator.Accounts: not for states in which a page was taken by a bit that lies in a page record, a page with blocks
  was freed, a page's slots ran out, the heap pointer wrapped, or a client stored to a descriptor that lies in its block;
  the code keeps no such order there.
- PageAllocator.Allocator.HeapAlloc: the stores for every page and size; that all stays in order only for a page that is
  marked by an own bit, with a slot left, and a size that does not make the heap pointer wrap.
- PageAllocator.Allocator.FreePage: the stores for every page; that all stays in order only for a page without blocks that
  is marked by an own bit, because the code leaves the blocks of others behind.
- Paging.AddressSpace.MapRange: not for the ranges for which the loop does not end.
- FatFiles.FileSystem.Read: of a directory without a size whose chain is not terminated, only as far as the chain that the
  caller has in mind reaches; any longer chain that the table gives will do. Not for a chain of 12-bit entries of which
  one straddles the cached window and is not found wherever the window lies (`FatTable.FoundEverywhere`).
- FatFiles.FileSystem.NextSector: not for such a chain either.
- FatFiles.FileSystem.TakeSome: not for such a chain either.
- FormatString.FormatLoop: after the loop steps past the end of the format nothing is modelled.
- FormatString.PutString: `strnlen` is taken to do what its comment says. The assembly routine loads the string into one
  register and scans another, so that padding of `%s` by the length is arbitrary in the kernel
  (src/kernel/arch/i686/string.asm:301-320 is not part of this model).
- FormatString.FormatInto: nothing is said of a format that is overstepped.
- FormatString.FormatTwice: nothing is said of a format that is overstepped.
- Itoa.ToText: bases 2, 8, 10 and 16, those that `printf` uses too.
- Border.HLine: not for counts that overflow when added to the cursor column, which is undefined in C.
- Border.VLine: not for counts that overflow when added to the cursor row, which is undefined in C.
- Border.ChgAt: not for counts that overflow when added to the cursor column, which is undefined in C.
- Resize.NewWin: for a first row and column that are not negative. Memory is not granted for 0 rows or columns, which is
  what the kernel's `malloc` does; for fewer than 0 the model returns null too, where that `malloc` panics or its bound
  check wraps.
- Resize.ResizeWindow: for windows without a parent, because subwindows are not modelled.
- Refresh.NoutRefresh: for windows that lie on the screen. `newwin` tests that and `resize_window` does not; copying out
  a window that reaches over the screen then writes outside the image. In the runs such a window is not copied out.
- Runs.EveryRunShows: the refreshed window is not the one that was made to reach over the screen by a resize.
- Qsort.Qsort: what happens after the sort has left the array is not modelled.
