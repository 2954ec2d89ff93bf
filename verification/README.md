# Verified model of the boot loader and its small algorithms

This project models, in Dafny, the parts of the repository whose correctness is not visible from any
single function:

* the K&R heap (`src/heap.cpp`): `HeapSpec`, `HeapLinks`, `HeapSearch`, `HeapMemory` (the
  memory inside the blocks), `Heap`, `HeapRuns`;
* the update path from the firmware file to the started image: `Tea` (the cipher), `TeaVector` (the cipher on the
  registers of the machine, and a known block), `Keys` (keys and the server's recovery of them), `FwCheck`
  (descriptor and check sum on both sides), `Disk`, `FatTable`, `Fat12` (the emulated FAT12 disk), `ImageWriter`,
  `FlashSpec`, `FlashWriter` (the memory behind it), `Pipeline` (the theorems across all of them);
* the Mass-Storage Bulk-Only state machine: `MassSpec` (steps), `MassRuns` (every run), `MassCommands`
  (whole transfers), `MassReplies` (whole commands that are answered, byte by byte),
  `MassStorage` (the class with its buffers);
* the USB descriptor generator and the device that reads its output: `UsbTree`, `UsbGenerator`, `UsbWalk`,
  `UsbStrings`, `UsbDecode` (what a host reads);
* the FIFO between thread and interrupt: `Fifo`;
* the MIDI-to-score compiler and the player: `MidiTrack`, `MidiMixer`, `MidiScore`, `MidiSchedule` (what the
  events of the tracks decide about the merge), `MidiMerge` (the merge itself), `MidiVoices` (what is played, told
  of the score alone), `MidiCases` (files of which the outcome can be told);
* the host controller's transfer loop: `Transfer`;
* the fixed-point arithmetic of the speech codec: `Gsm`.

`Words` holds bytes, 32-bit words with their wrap-around, and bit operations; `Bits` ties these to the bit operations
of 32-bit registers, and `KnownBytes` shows the formats in bytes.

`dafny verify dfyconfig.toml` checks everything. Code that works by changing things is a class or a method
here; each method is proved against a function or relation on values, and the properties of whole runs are
lemmas about those.

## How to read the main results

* **Heap.** Memory is a tiling of `[1, end)` by live and free blocks (`Wf`); `Linked` says that the `ptr`
  and `size` fields represent it. `Malloc` and `Free` take one well-formed heap to the next by
  `MallocStep` and `FreeStep`; `RunKeeps`, `AfterAnyRun` and `AllFreed` speak about every run of those.
  `Undisturbed` and `Spared` say that no unit inside a live block is written, and `CallerWrites` that its owner may.
  Addresses count header units, and `base` lies below the region.
* **Pipeline.** `EndToEnd` puts together: the file is checked and completed by `FwCheck`; the server has the key
  of the device whose URL opened the selection page last, whatever requests came before; the image is encrypted and
  padded to sectors; the sectors arrive by any conforming WRITE commands; memory behind the disk, RAM or flash, then
  holds the bytes of the file, and `UserCheck` accepts it. `ShortestIsSent` gives an input of it for every key, and
  `WriteSectors` is one such way of writing.
* **Bulk-Only.** The log of a run holds accepted command blocks, data packets, reports and stalls.
  `OneHonestReport` and the lemmas of `MassCommands` are statements about logs. Their runs may hold any packets of
  the sizes that the buffers take, but no OUT packet while a report waits or after an invalid command block:
  `BulkOutGood` shows that exactly those draw a report that belongs to no command.
* **MIDI.** `Listen` is what repeated calls of `find_note` deliver for a track; `Render` is what a time-ordered
  list of events does to the generators and the score. `Ends` says, of the lists of events alone, in which order
  they are handled and where and why that ends; `OneOutcome` shows that it leaves no choice. `ConvertAndPlay` ties
  file, merge, byte stream and player together: for every outcome its log satisfies `Ends` for what `Listen` hears in
  the file (`Explained`), so that by `OneAnswer` any two results for a file are equal.
  `Scored` describes a score without the mixer's state: one piece for each event, each told by the commands before it
  and the entries that made them.
* **Transfer.** `Books` accounts for every byte and request, and for the order of what is left of the queue;
  `InTurn` says that requests and bytes were served in the order of the queue, where a request that a short packet
  ended counts as still in its place; `Fates` says how the block and each request ended and that their packets
  justify it; `Rests` and `Passed` say where a transfer in progress may stop.

Things the code does that its comments or names do not say, and that the proofs had to follow:

* `IndexSize`: the directory's size of `index.html` is that of the page if and only if the page has exactly one `%`.
* `WrittenVerifies`: after a successful WRITE a VERIFY of the same data passes if and only if every packet is
  either one the disk keeps or all zeros; the other sectors swallow writes.
* `ServerRecoversKey`: the loader key changes only for devices that are paid for, but the request succeeds either way.
* `ChoiceInRun`: there is one loader key for all devices; a choice is coded under the device's own key if and only if
  it was the last paid device to open the selection page, or nobody did and the key was its own from the start.
* `EndToldExactly`: no empty packet closes a string; a host that asked for more than there is cannot tell the end
  exactly when the descriptor's length is a multiple of 64, that is for 31, 63 and 95 characters (`StringEndTold`).
* `Stuck` in the MIDI merge: when only events at 0x7fffffff ticks or later are left, the loop can go round without
  end. Where no delay is refused and no track is malformed, it does so if and only if such an event lies in a track
  other than the one served last before that time (`StuckExactly`; by times alone `StuckByTimes`, `StuckByTies`,
  `StuckOutsideTies` and `StuckWithoutEarly`); so it never does with a single track or without such events
  (`NeverStuck`), and never ends well with such events in two tracks (`NeverFinished`). `LateIsStuck` and
  `ConvertLate` give a file for which it happens, and `Pass` shows that the pass that repeats changes nothing.
* When every track is empty, the merge still writes one delay of zero milliseconds (`SilentTune`).
* `EmptyLook`: when the frame's limit is used up, `transfer` still takes a look at a request exactly if that wants no
  data or the block has no room, and then ends the transfer with an empty packet. Only so can a request be given back
  before others of its stream (`GivenInOrder`).
* `BulkOutGood`: an OUT packet that comes while a report waits draws a second report, with a phase error.

## Assumptions

The host sends at most 31 bytes where a command block is due, 64 bytes where data are due, and at most 64 elsewhere;
a WRITE that gets as far as its packets names blocks of the disk, and so do READ and VERIFY unless the image ends
inside the disk; `nbytes` of an allocation does not wrap; the configuration table is followed by a zero byte, which
the generator does not emit (usb/usbdevice.cpp:730-732); the memory behind the disk is the memory of the user's
code, which in flash starts at sector 1; the index page fits its sector.

## Model

| member | source | states |
|---|---|---|
| HeapAllocator.Allocator.Malloc | src/heap.cpp:49-74 | one call is one `MallocStep` of the abstract heap, the headers stay linked as the tiling says, and the result is the given block; every live block stays live and no unit inside it is written; the region grows, if it does, by the least multiple of 16 units that holds the request |
| HeapAllocator.Allocator.Search | src/heap.cpp:59-73 | the loop ends: it takes the next fit, or the region has grown once and its last block is taken, or NULL |
| HeapAllocator.Allocator.Take | src/heap.cpp:60-69 | an exact fit leaves the ring, otherwise the tail is cut off and gets a header; nothing else is written |
| HeapAllocator.Allocator.Free | src/heap.cpp:78-96 | one call is one `FreeStep`: the block becomes free and melts into both neighbours; no unit inside any live block is written |
| HeapAllocator.Allocator.FindBelow | src/heap.cpp:82-83 | the search always ends, at the ring element directly below the block |
| HeapAllocator.Allocator.LinkIn | src/heap.cpp:85-95 | the relinking statements, coalescing upwards and downwards |
| HeapAllocator.Allocator.Morecore | src/heap.cpp:153-166 | the region grows by the least multiple of 16 units that holds the request, which are freed at once; or nothing changes, exactly when no such multiple is left |
| HeapAllocator.Allocator.Donate | src/heap.cpp:161-165 | the new units get a header and are freed: the heap with one more block at its end, coalesced, and no unit inside a live block written |
| HeapAllocator.Allocator.Xsbrk | src/heap.cpp:130-151 | the old end, with the region extended, unless it would pass the stack |
| HeapRuns.RunKeeps | src/heap.cpp:49-96 | any run of malloc and free, each free given a live block, keeps the heap well formed |
| HeapRuns.AfterAnyRun | src/heap.cpp:49-96 | after any run: the ring through base ascends with one wrap, blocks are pairwise disjoint, no two free blocks touch, free plus live units are the units obtained |
| HeapRuns.AllFreed | src/heap.cpp:78-96 | when nothing is live, in whatever order it was freed, the free list is base and one block that spans the whole region |
| HeapRuns.Conservation | src/heap.cpp:49-96 | free and live units share out exactly the units obtained from xsbrk |
| HeapRuns.FreeApart | src/heap.cpp:85-94 | two free blocks never touch |
| HeapRuns.EndsAligned | src/heap.cpp:153-166 | after any run the region ends a multiple of 16 units behind its start |
| HeapRuns.StepEnd | src/heap.cpp:49-96 | one call moves the end of the region only for a request that fits nowhere, and then by the least multiple of 16 units that holds it |
| HeapRuns.MallocGives | src/heap.cpp:49-74 | a new live block of exactly n units and every other live block as it was in the tiling; NULL if and only if no free block fits and no multiple of 16 units that holds the request is left; the region grows only when nothing fits, and then by the least such multiple |
| HeapRuns.MallocTail | src/heap.cpp:59-73 | when a free block is big enough, malloc gives the tail of the first such block going up from the rover and round, and leaves the rover directly below that block |
| HeapRuns.GrownTail | src/heap.cpp:71-72 | when the region has grown, the block given lies at its end |
| HeapRuns.FirstRequest | src/heap.cpp:49-74 | malloc(8) on a fresh heap makes a region of 16 units and returns unit 16 |
| HeapRuns.FreeTakes | src/heap.cpp:78-96 | exactly the given block disappears from the live ones |
| HeapRuns.FreeRover | src/heap.cpp:82-95 | after free the rover is the highest ring element below the block |
| HeapRuns.Enough | src/heap.cpp:53-53 | the rounded request holds the bytes asked for, in units of 8, and wastes less than one unit |
| HeapMemory.FreeSpares | src/heap.cpp:85-95 | the relinking of free writes no unit inside a live block |
| HeapMemory.TakeSpares | src/heap.cpp:60-69 | neither does the taking of a block by malloc, and every live block stays live |
| HeapMemory.GrowSpares | src/heap.cpp:153-166 | nor the growing of the region |
| HeapMemory.CallerWrites | src/heap.cpp:49-96 | whatever a caller writes inside a live block, the headers still describe the heap |
| HeapSearch.SearchStopAt | src/heap.cpp:82-83 | both exits of free's search are taken at the element below the block and at no other |
| HeapSearch.GrowsOnce | src/heap.cpp:71-72 | after growing the search cannot come round again: morecore is called at most once |
| HeapSearch.RefusedExactly | src/heap.cpp:157-160 | morecore refuses exactly when no multiple of 16 units that holds the request is left below the stack, and the units it asks for are the least such multiple |
| HeapSearch.GrownFitsOnly | src/heap.cpp:71-72 | after growing only the last block is big enough |
| HeapSearch.NothingFits | src/heap.cpp:71-72 | back at the rover, every free block was found too small |
| HeapSearch.FoundTile | src/heap.cpp:60-68 | the element found is the next fit behind the rover, and q the element below it |
| HeapLinks.TestAbove | src/heap.cpp:85-89 | comparing p + size with q->ptr finds out exactly whether the block above is free |
| HeapLinks.TestBelow | src/heap.cpp:90-94 | comparing q + size with p finds out exactly whether the block below is free |
| HeapLinks.ReleaseLinks | src/heap.cpp:85-95 | after the relinking the ptr fields form the ring of the new tiling |
| HeapLinks.ReleaseSizes | src/heap.cpp:85-95 | after the relinking the size fields are those of the new tiling |
| HeapSpec.ReleasedCoalesced | src/heap.cpp:85-94 | whatever was free around the block, no two free blocks touch after its release |
| Tea.Encrypt | src/tea.c:5-14 | the 32-round loop on a pair in place is the round function folded over the running sums; what a round does is `TeaVector.RoundOnBits` |
| Tea.Decrypt | src/tea.c:16-25 | the loop from the last sum down is the inverse fold |
| Tea.SumEnd | src/tea.c:17-17 | the constant that decryption starts with is the sum that encryption ends with |
| Tea.CryptInverse | src/tea.c:27-36 | on every buffer of a multiple of 8 bytes decryption undoes encryption and encryption undoes decryption |
| Tea.CryptConcat | src/tea.c:27-36 | coding a buffer in pieces cut at multiples of 8 is coding the whole |
| Tea.EncryptBlock | src/tea.c:27-31 | a buffer is encrypted in place, pair by pair, with nothing outside it changed |
| Tea.DecryptBlock | src/tea.c:32-36 | likewise decrypted |
| TeaVector.MixOnBits | src/tea.c:10-11 | for every word, sum and key words: what a half-round adds is the exclusive or of (v << 4) + a, v + sum and (v >> 5) + b in 32-bit registers |
| TeaVector.RoundOnBits | src/tea.c:9-11 | a round adds to the first word what is mixed from the second with k[0] and k[1], then to the second what is mixed from the new first with k[2] and k[3] |
| TeaVector.SumIs | src/tea.c:9-9 | the running sum of round n is n * 0x9e3779b9 in 32 bits |
| TeaVector.ZeroBlock | src/tea.c:5-14 | the zero block under the zero key becomes 41EA3A0A 94BAA940, round by round |
| TeaVector.KnownBlock | src/tea.c:5-25 | eight zero bytes are coded as 0A 3A EA 41 40 A9 BA 94 under the zero key, and these are decoded to zeros |
| Bits.XorNum | src/tea.c:10-11 | the exclusive or on numbers is that of 32-bit registers |
| Bits.NumShl4 | src/tea.c:10-11 | every register holds a word, and multiplying by 16 in 32 bits shifts it by four to the left |
| Bits.NumShr5 | src/tea.c:10-11 | dividing by 32 shifts it by five to the right |
| Bits.Registered | src/tea.c:5-14 | every word is the number in some register |
| Keys.XorInto | src/keys.c:17-20 | the loop computes the bitwise exclusive or of key and identifier |
| Keys.XorKeyUndo | src/keys.c:17-20 | applying the identifier twice gives the key back |
| Keys.ToHex | work/boot/fat12emul.cpp:144-153 | eight hexadecimal digits, most significant first, in place and nothing else |
| Keys.HexRoundTrip | work/boot/fat12emul.cpp:144-153 | what toHex prints, a %08X conversion reads back |
| KnownBytes.HexAt | work/boot/fat12emul.cpp:144-153 | for every number: position i of its w digits is the character of "0123456789ABCDEF" for its digit of weight 16^(w-1-i) |
| KnownBytes.HexKeyAt | work/boot/fat12emul.cpp:289-291 | a key is shown word by word, eight digits each |
| KnownBytes.Names | work/http/contextserver.cpp:62-134 | the names and the parts of the form in ASCII: FIRMWARE.BIN, ?volby=, &ok=Odeslat |
| Keys.UrlRoundTrip | work/http/contextserver.cpp:129-134 | the request that the device's page leads to parses to the key on the page and the firmware's name |
| Keys.ChoiceRoundTrip | work/http/contextserver.cpp:49-72 | the form of the selection page leads back to the choice that was made, for every number |
| Keys.SendImage | work/http/contextserver.cpp:129-167 | for every request: whether nothing, the page for unpaid devices, the selection page or which firmware is served, and the loader key in place afterwards |
| Keys.TakeKey | work/http/contextserver.cpp:136-158 | the loops over the paid devices: the loader key is replaced exactly for a paid device |
| Keys.ServerRecoversKey | work/http/contextserver.cpp:137-156 | the server ends up with the key of the device whose URL was used if and only if the device is paid for or it had that key already |
| Keys.DeviceIsServed | work/http/contextserver.cpp:129-167 | a device gets the selection page if and only if it is paid for; every choice there then leads to that firmware and to the loader key of exactly this device |
| Keys.RunKey | work/http/contextserver.cpp:137-156 | after any run of requests the loader key is that of the last paid device to open the selection page |
| Keys.ChoiceInRun | work/http/contextserver.cpp:129-167 | after any run of requests a choice is served; it is coded under the device's own key if and only if the device opened the selection page last, or nobody did and the key was its own |
| FwCheck.FwCheck | src/fwcheck.cpp:35-66 | rejects exactly the files without the bytes 78 56 34 12 at 0x188; otherwise the padded file with size and check word filled in: every byte of the file but for these two words, and zeros behind it |
| FwCheck.FilledCarries | src/fwcheck.cpp:45-61 | the completed image holds the bytes of the file outside 0x18C to 0x193, zeros from the end of the file on, and is the least multiple of 8 bytes that holds it |
| FwCheck.MagicBytes | src/fwcheck.cpp:52-55 | the test for the magic word is one for these four bytes of the file |
| FwCheck.FilledSumsToZero | src/fwcheck.cpp:56-61 | the 32-bit words of the filled image add up to zero and its descriptor tells its size |
| FwCheck.CheckWordCancels | src/fwcheck.cpp:57-61 | whatever the sum with a cleared check word, the check word cancels it and changes nothing else of the descriptor |
| FwCheck.SumWords | src/fwcheck.cpp:58-60 | the summing loop gives the wrapped sum of all words |
| FwCheck.UserCheck | work/boot/checks.cpp:15-26 | the device's verdict is `Acceptable`, and image_size is the size in the descriptor or 0 |
| FwCheck.AcceptableExactly | work/boot/checks.cpp:15-26 | the device takes exactly the memory with these bytes at 0x188 whose words, as many as the size at 0x18C tells and at least one, add up to a multiple of 2^32 |
| FwCheck.OneWordWrong | work/boot/checks.cpp:15-26 | an image in which any one word has changed is refused, the word of the size excepted |
| FwCheck.FilledIsAcceptable | work/boot/checks.cpp:15-26 | memory that starts with a filled image is accepted, with the image's size |
| FwCheck.Round8Up | src/fwcheck.cpp:41-43 | the rounded size is the least multiple of 8 that holds the file |
| DiskSpec.DiskRefines | work/boot/fat12emul.cpp:204-376 | no run of reads and writes can tell the emulated disk from a flat disk on which only the visible packets can be written |
| DiskSpec.WriteRead | work/boot/fat12emul.cpp:297-376 | a packet reads back the last bytes written to it if it is visible, and a write disturbs no other packet |
| DiskSpec.WriteRefines | work/boot/fat12emul.cpp:339-376 | one write is one write on the flat disk; this needs that encryption undoes decryption |
| DiskSpec.InvisibleReadsZero | work/boot/fat12emul.cpp:301-337 | all other sectors read zero whatever was written |
| DiskSpec.WriteAllImage | work/boot/fat12emul.cpp:372-376 | a run of packets into the image leaves their decryption there and nothing else changes |
| ImageWriter.TeaUndoes | work/boot/imagewriter.cpp:16-27 | under one key, reading encrypts what writing decrypted |
| ImageWriter.Writer.ReadBytes | work/boot/imagewriter.cpp:16-21 | the buffer gets the encrypted bytes of the image; the image stays |
| ImageWriter.Writer.WriteBytes | work/boot/imagewriter.cpp:22-27 | the decrypted packet replaces exactly its bytes of the image; the packet itself stays |
| FatTable.WriteEntryAt | work/boot/fat12emul.cpp:73-77 | an entry is written in place, its neighbour's half of the shared byte kept |
| FatTable.EntryWritten | work/boot/fat12emul.cpp:61-77 | the entry reads back, and every other entry is readable unchanged |
| FatTable.EntryPair | work/boot/fat12emul.cpp:61-77 | three bytes are two entries: as one little-endian number, the even entry is its lower 12 bits and the odd one its upper |
| FatTable.FillTable | work/boot/fat12emul.cpp:250-270 | for any number of clusters that fits: three fixed entries, a chain of successors, its end mark, and no byte behind them or before the table changed |
| FatTable.ChainFrom | work/boot/fat12emul.cpp:264-270 | following the chain visits the consecutive clusters and ends at 0xFFF after the last, however far a host is prepared to follow |
| FatTable.ChainCoversFile | work/boot/fat12emul.cpp:232-282 | the chain covers the file with no cluster to spare and maps file sector i to disk sector pt2 + i |
| Fat12.Fat12Emul.Prepare | work/boot/fat12emul.cpp:227-296 | the whole IO area: boot sector, table, directory with the two sizes, index page; zeros everywhere else before the page, and what was there behind it; routing constants; the image left alone; `Prepared` holds |
| Fat12.Fat12Emul.Locate | work/boot/fat12emul.cpp:232-245 | the routing constants and the size that is left for the image, computed from the boot sector and the directory |
| Fat12.HostFinds | work/boot/fat12emul.cpp:41-54 | the table, the root directory and the data begin where the boot sector tells a host by the FAT rules |
| Fat12.HostReadsImage | work/boot/fat12emul.cpp:227-283 | the file FIRMWARE.BIN of the directory, read by its first cluster, its chain and the geometry in the boot sector, is the 122 sectors from sector 6 on, and its size says so |
| Fat12.HostReadsIndex | work/boot/fat12emul.cpp:227-283 | the index page likewise is sector 4 |
| Fat12.DiskIsFull | work/boot/fat12emul.cpp:6-12 | the disk seems to be full: no cluster of the data area is free |
| Fat12.Fat12Emul.CmdRead | work/boot/fat12emul.cpp:204-208 | offset and length in bytes, modulo 2^32 |
| Fat12.Fat12Emul.CmdWrite | work/boot/fat12emul.cpp:209-223 | likewise, and the request to erase, which is made only for at least one block |
| Fat12.EraseExact | work/boot/fat12emul.cpp:214-222 | the request to erase names exactly the image blocks among the sectors of the command, and is not made when there are none |
| Fat12.Fat12Emul.Read | work/boot/fat12emul.cpp:297-337 | delivers the packet of the disk at the offset, and zeros behind the disk, advances modulo 2^32, and tells the end exactly at remaining length zero |
| Fat12.Fat12Emul.Write | work/boot/fat12emul.cpp:339-376 | the disk after the write of one packet, with the same bookkeeping |
| Fat12.PageShows | work/boot/fat12emul.cpp:285-295 | a page with one % shows the key's 32 digits in its place |
| Fat12.IndexSize | work/boot/fat12emul.cpp:278-278 | the size in the directory is that of the page if and only if there is exactly one % |
| FlashWriter.FlashImage.EraseBlocks | work/boot/flashwriter.cpp:22-35 | erases every sector that the request reaches and that was not erased since boot, and marks it |
| FlashWriter.FlashImage.WriteBytes | work/boot/flashwriter.cpp:43-57 | programs the decrypted halfwords of the packet, or nothing while the flash is locked |
| FlashWriter.FlashImage.ProgramAll | work/boot/flashwriter.cpp:50-56 | the halfword loop: bits are only cleared, and only at the packet's addresses |
| FlashSpec.ProgramErased | work/boot/flashwriter.cpp:53-56 | an erased halfword takes any value |
| KnownBytes.ProgramsClear | work/boot/flashwriter.cpp:50-56 | programming a halfword takes the bitwise and of registers that hold the old and the written value: bits are only cleared |
| Bits.AndNum | work/boot/flashwriter.cpp:50-56 | the bitwise and on numbers is that of 32-bit registers |
| FlashSpec.ProgramsErased | work/boot/flashwriter.cpp:22-57 | in a conforming run every packet is programmed into a sector erased before |
| FlashSpec.ErasedOnce | work/boot/flashwriter.cpp:26-31 | no two events of any run erase the same sector |
| FlashSpec.LeftAlone | work/boot/flashwriter.cpp:22-57 | a block of flash keeps what it holds through any conforming run in which no command reaches its sector and no packet is for it |
| FlashSpec.FlashHoldsImage | work/boot/flashwriter.cpp:11-57 | after any conforming run flash holds exactly the decrypted packets that arrived; later commands never destroy them |
| FlashSpec.RunGood | work/boot/flashwriter.cpp:11-57 | the invariant of every packet place over every run |
| FlashSpec.StartsFromSizes | work/boot/flashwriter.cpp:11-16 | the sector boundaries are the running sums of the sector sizes |
| Stream.RamArrival | work/boot/imagewriter.cpp:22-27 | however its packets came, in any order and by any commands, a stream written through the disk with the RAM writer arrives decoded, in place |
| Stream.RamHolds | work/boot/imagewriter.cpp:22-27 | after any run every packet of the image is the last one that arrived for it, decoded |
| Stream.FlashArrival | work/boot/flashwriter.cpp:22-57 | likewise with the flash writer, for any conforming commands, from any flash contents at boot |
| Stream.ArrivalsConform | work/boot/fat12emul.cpp:209-223 | one WRITE command for the image and its packets form a conforming run |
| Stream.OneCommandRun | work/boot/fat12emul.cpp:339-376 | one command and its packets in order are the writing of all packets one after the other |
| Pipeline.EndToEnd | src/fwcheck.cpp:35-66 | from file to start: any run of requests in which the device opened its page last, encryption, padding, any conforming commands that deliver the sectors, RAM or flash: memory holds the bytes of the file, but for the two words behind the magic word, and zeros up to a multiple of 8, and the device accepts it with that size |
| Pipeline.SendFw | work/http/contextserver.cpp:168-195 | the file is refused exactly as FwCheck does; otherwise what leaves in chunks is the encrypted image, whole and in order, and it decrypts to the bytes of the file |
| Pipeline.FitsInSectors | src/fwcheck.cpp:35-66 | every file that passes the check can be sent in any number of sectors that hold it |
| Pipeline.ShortestIsSent | src/fwcheck.cpp:35-66 | a file of 404 bytes with the magic word, in one sector, by one command, under any key: what EndToEnd requires can be met |
| Pipeline.LandsInRam | work/boot/fat12emul.cpp:339-376 | once the sectors have arrived, in any order and by any commands, RAM holds the image |
| Pipeline.LandsInFlash | work/boot/flashwriter.cpp:22-57 | likewise flash, for any conforming commands |
| Pipeline.CheckedAccepted | work/boot/checks.cpp:15-26 | any memory that holds the checked image is accepted, and the image carries the file |
| Pipeline.WriteSectors | work/boot/fat12emul.cpp:209-376 | the host's loop on the disk object: one conforming command that delivers the sectors, exactly these blocks are asked to be erased, and the storage tells the end with the last packet and not before |
| MassRuns.OneHonestReport | usb/class/msclass.cpp:19-126 | in every run from power-on, phase errors included, between consecutive accepted command blocks lies exactly one report, with that command's tag; if it says passed, its residue is the announced length less the bytes moved |
| MassRuns.RunGood | usb/class/msclass.cpp:19-68 | every conforming run keeps the invariant: stages fit their commands, and with no pending sense the residue is what the storage has left |
| MassRuns.BulkInGood | usb/class/msclass.cpp:19-42 | taking an IN packet keeps it |
| MassRuns.BulkOutGood | usb/class/msclass.cpp:43-68 | an OUT packet keeps it if and only if no report waits and the last command block was valid; otherwise it draws a report without a command |
| MassRuns.SetupTransfers | usb/class/msclass.cpp:414-461 | an accepted length is the one the storage was told, also where blocks times 512 wraps |
| MassCommands.ReadDelivers | usb/class/msclass.cpp:150-162 | READ10 and READ12 send exactly the blocks asked for in 8n packets and then their report; passed exactly if nothing was pending; the disk stays |
| MassCommands.WriteStores | usb/class/msclass.cpp:164-176 | WRITE10 and WRITE12 leave exactly the packets on the disk and report likewise |
| MassCommands.VerifyCompares | usb/class/msclass.cpp:177-195 | VERIFY10 with byte check passes exactly if the disk holds the packets and nothing was pending, and changes nothing |
| MassCommands.WrittenReads | usb/class/msclass.cpp:210-277 | after a run of writes every packet reads as last written, if it is visible |
| MassCommands.WrittenVerifies | usb/class/msclass.cpp:236-258 | a VERIFY after the WRITE of the same packets passes if and only if each is visible or zero |
| MassCommands.NeverOutOfRange | usb/class/msclass.cpp:79-84 | no run sets the out-of-range sense that would stall a data phase |
| MassReplies.CommandFields | usb/class/msclass.h:71-81 | a command block is accepted exactly with the signature bytes USBC, 31 bytes, unit 0 and a length of 1 to 16, and its tag, length, direction and operation are where the Bulk-Only Transport has them |
| MassReplies.TransferFields | usb/class/msclass.cpp:413-437 | READ and WRITE: the block address is in bytes 17 to 20, highest first, the number of blocks in bytes 22 and 23, or in 21 to 24 for the commands of 12 bytes |
| MassReplies.ReplyDelivers | usb/class/msclass.cpp:278-481 | whole REQUEST SENSE, INQUIRY, MODE SENSE and capacity commands: the host reads the bytes described, cut to the length it announced, then passed with the residue; REQUEST SENSE, and nothing else, clears what was pending |
| MassReplies.SenseForgets | usb/class/msclass.cpp:462-481 | whatever is pending: REQUEST SENSE for at least 18 bytes sends key, ASC and ASCQ in bytes 2, 12 and 13, passes, and leaves nothing pending |
| MassReplies.ClearWorks | usb/class/msclass.cpp:128-194 | with nothing pending TEST UNIT READY passes, and READ delivers its blocks and passes |
| MassReplies.ReplyRefused | usb/class/msclass.cpp:278-295 | a command that is answered is a phase error exactly when the host announces no data or sends some, and nothing else changes |
| MassReplies.UnitReady | usb/class/msclass.cpp:482-497 | TEST UNIT READY reports failed exactly while the sense of the reset is pending |
| MassReplies.VerifyPasses | usb/class/msclass.cpp:176-183 | VERIFY without byte check moves nothing and passes |
| MassReplies.UnknownFails | usb/class/msclass.cpp:195-206 | a command that the device does not know fails, with the sense 0x052400 |
| MassReplies.OtherUnitFails | usb/class/msclass.cpp:108-114 | a block for another unit or with a bad length fails, with the sense 0x052500 |
| MassStorage.MsClass.HandleIn | usb/class/msclass.cpp:19-42 | the class does exactly the abstract IN step, buffers and storage included |
| MassStorage.MsClass.HandleOut | usb/class/msclass.cpp:43-68 | the class does exactly the abstract OUT step, the phase error in every other stage included, and any command block that is refused before it moves a packet |
| MassStorage.MsClass.MscGetCbw | usb/class/msclass.cpp:96-126 | the copying loop and the checks are the abstract taking of a command block |
| MassStorage.MsClass.CommandParser | usb/class/msclass.cpp:127-208 | every command, the unknown ones included, as its abstract step; what those that are answered from the device do as a whole is `MassReplies.ReplyDelivers` |
| MassStorage.MsClass.MscMemoryRead | usb/class/msclass.cpp:210-235 | one data packet to the host, and the status after the last |
| MassStorage.MsClass.NextPacket | usb/class/msclass.cpp:210-258 | a packet read from the storage is the one at its offset, or zeros behind the disk |
| MassStorage.MsClass.MscMemoryVerify | usb/class/msclass.cpp:236-258 | one packet compared, and the report after the last |
| MassStorage.MsClass.MscMemoryWrite | usb/class/msclass.cpp:259-277 | one packet stored, and the report after the last |
| MassStorage.MsClass.Compare | usb/class/msclass.cpp:243-248 | the comparing loop clears MemOK exactly for a difference |
| MassStorage.MsClass.DataInFormat | usb/class/msclass.cpp:278-294 | a reply is refused with a phase error exactly for length zero or the wrong direction |
| MassStorage.MsClass.DataInTransfer | usb/class/msclass.cpp:295-314 | sends the reply cut to the announced length and lowers the residue by it |
| MassStorage.MsClass.MscRequestSense | usb/class/msclass.cpp:462-481 | the sense reply, after which nothing is pending; when the host cannot take it, a phase error, and what was pending stays |
| MassStorage.MsClass.MscTestUnitReady | usb/class/msclass.cpp:482-499 | fails exactly while the reset is pending |
| MassStorage.MsClass.MscReadSetup | usb/class/msclass.cpp:414-461 | accepts exactly a non-zero length equal to blocks times 512 modulo 2^32 |
| MassStorage.MsClass.MscWriteSetup | usb/class/msclass.cpp:500-546 | likewise for writing |
| MassStorage.MsClass.Decrease | usb/class/msclass.cpp:69-72 | the residue follows the packets exactly while nothing is pending |
| UsbTree.EncodingLength | usb/usbdevice.cpp:768-773 | every printed descriptor tells its own length in its first byte |
| UsbTree.PrintLength | usb/usbdevice.cpp:768-773 | the printed table is as long as the lengths of its descriptors add up to |
| UsbTree.TreeFits | usb/usbdevice.cpp:642-648 | for any tree of CDC and MSC classes that fits its fields the descriptors are printable and add up to the size of its parts |
| UsbTree.DeviceFits | usb/usbdevice.cpp:715-733 | the whole table is printable and its head tells its length |
| UsbDecode.DecodeEncoding | usb/usbendpoint.cpp:43-82 | every printed descriptor is decoded to what it stands for by a host that knows the constants of the USB specifications: class, subclass and protocol, endpoint attributes, packet sizes, intervals, power |
| UsbDecode.TableDecodes | usb/usbdevice.cpp:715-733 | a host that goes through the table of any device by the length bytes reads its descriptors one after the other |
| UsbDecode.InterfacesInOrder | usb/usbdevice.cpp:715-733 | the interfaces are numbered from 0 on without a gap, as many as the head of the table tells |
| UsbDecode.EndpointsTold | usb/usbinterface.cpp:31-49 | an interface tells exactly how many endpoint descriptors follow it, and these have its address |
| UsbGenerator.Generator.BuildDev | usb/usbdevice.cpp:37-48 | endpoint addresses in order of the interfaces, and the numbers of endpoints and interfaces in use |
| UsbGenerator.Generator.AddString | usb/usbdevice.cpp:774-781 | the index one above the strings known so far, or 0 for no string, and the table extended by it |
| UsbGenerator.Generator.EnumerateEndpoint | usb/usbendpoint.cpp:67-81 | the length grows by one or two endpoint descriptors |
| UsbGenerator.Generator.EnumerateInterface | usb/usbinterface.cpp:35-48 | the interface is numbered and the length grows by what it will print |
| UsbGenerator.Generator.EnumerateClass | usb/class/cdclass.cpp:189-204 | the class's numbers and string index, and the length by what it will print |
| UsbGenerator.Generator.Enumerate | usb/usbdevice.cpp:642-648 | the number of bytes that bldcfg will emit |
| UsbGenerator.Generator.BldInterface | usb/usbinterface.cpp:31-34 | the interface's descriptors and those of its endpoint, a bulk endpoint once per direction |
| UsbGenerator.Generator.BldClass | usb/class/cdclass.cpp:185-188 | the descriptors of a class in order |
| UsbGenerator.Generator.BldCfg | usb/usbdevice.cpp:715-733 | the table emitted is the device's, exactly as long as enumerate said and as its head says; the interfaces that buildDev counted are those that enumerate numbered |
| UsbWalk.UsbDevice.ReqSetConfiguration | usb/usbdevice.cpp:267-357 | for any value: the walk ends, visits every descriptor at its first byte, and the masks and the configuration are those of the visits |
| UsbWalk.UsbDevice.Visit | usb/usbdevice.cpp:279-332 | what one descriptor does to the device, and where the walk goes on |
| UsbWalk.DeviceWalks | usb/usbdevice.cpp:715-733 | what the generator prints for any device is a table that the walk understands |
| UsbWalk.TreeBits | usb/usbdevice.cpp:315-328 | the endpoint bits of the table are exactly those of the device's classes |
| UsbWalk.AllVisits | usb/usbdevice.cpp:275-332 | after the walk the mask is 0x00010001 and exactly the bits of the table |
| UsbStrings.BldStr | usb/usbdevice.cpp:735-755 | the table of all registered strings, each with its length byte, in the order of their indices |
| UsbStrings.FlatAt | usb/usbdevice.cpp:207-220 | skipping by length bytes arrives at the descriptor with the index |
| UsbDecode.WideAt | usb/usbdevice.cpp:735-755 | every character of a string becomes its byte and then a zero |
| UsbDecode.StringReads | usb/usbdevice.cpp:735-755 | a string descriptor tells its length and type and has the characters as 16-bit numbers; the language is 0x0409 |
| UsbStrings.ChunksJoin | usb/usbdevice.cpp:64-76 | packets of at most 64 bytes make up the data; none is empty and all but the last are full |
| UsbStrings.EndToldExactly | usb/usbdevice.cpp:64-76 | the same for any data |
| UsbStrings.StringEndTold | usb/usbdevice.cpp:64-76 | so for strings the end is missed exactly with 31, 63 or 95 characters |
| UsbStrings.Endpoint0.DataInStage | usb/usbdevice.cpp:64-76 | the next packet, and what is left |
| UsbStrings.Endpoint0.GetString | usb/usbdevice.cpp:207-250 | finds the descriptor and cuts it to the length asked for |
| UsbStrings.Endpoint0.Deliver | usb/usbdevice.cpp:464-495 | for every registered string and any wLength the host gets exactly the first min(wLength, bLength) bytes, in packets of at most 64; it can tell the end exactly unless it asked for more and bLength is a multiple of 64 |
| Queue.Fifo.Write | inc/fifo.h:40-43 | accepts exactly if there is room, and appends |
| Queue.Fifo.Read | inc/fifo.h:47-50 | succeeds exactly if there is something, and removes the oldest |
| QueueThreads.AnyInterleaving | inc/fifo.h:40-61 | for every interleaving of the single steps of one writer and one reader: the values read are a prefix of those accepted, the length never exceeds N, and no store hits a value not yet read |
| QueueThreads.NoOverwrite | inc/fifo.h:41-41 | the place written next holds no value still to be read |
| QueueThreads.RunInv | inc/fifo.h:40-61 | the invariant of both threads over every run |
| QueueThreads.AtRest | inc/fifo.h:40-61 | when both are idle the length counts the accepted values that were not read, and each of them is in its place |
| Transmitter.NothingStuck | lib/stm32f4/src/usart.cpp:59-74 | for every interleaving of Down and the interrupt nothing is lost or reordered, and outside Down nothing waits with the interrupt disabled |
| MidiTrack.GetVarLen | work/midi/hlp/miditonesV1.6.c:468-482 | the loop is the reading of at most four groups of seven bits |
| MidiTrack.VarLenReadsBack | work/midi/hlp/miditonesV1.6.c:468-482 | every number below 2^28 in its shortest form is read back, with the address after it |
| MidiTrack.FindNote | work/midi/hlp/miditonesV1.6.c:490-630 | the loop finds the next note or tempo event of the chosen channels, the end of the track, or a format error |
| MidiTrack.TakeEvent | work/midi/hlp/miditonesV1.6.c:526-625 | what one event does to the track's state, by its status |
| MidiTrack.TrackReadsBack | work/midi/hlp/miditonesV1.6.c:490-630 | for any written track, with running status used wherever legal, repeated find_note delivers exactly its relevant events at their cumulated times, without a fault |
| KnownBytes.SmallTrack | work/midi/hlp/miditonesV1.6.c:490-630 | what is heard in fourteen given bytes of a track: a tempo, a note and its end by running status |
| KnownBytes.SmallScore | work/midi/midiplayer.cpp:74-101 | the bytes of a given score, and its duration in samples |
| Mixer.RenderKeeps | work/midi/hlp/miditonesV1.6.c:784-885 | whatever events come, every generator is started only when off and stopped only when on, and the generators are as the score left them |
| Mixer.Alternate | work/midi/hlp/miditonesV1.6.c:816-876 | plays and stops of a generator strictly alternate, starting with a play |
| Mixer.SoundingSince | work/midi/hlp/miditonesV1.6.c:816-876 | a generator sounds exactly if it was started and not stopped since |
| Mixer.OffFrees | work/midi/hlp/miditonesV1.6.c:816-833 | a note off stops every generator that plays the note for the track and no other |
| Mixer.OnDropsOnlyWhenFull | work/midi/hlp/miditonesV1.6.c:841-883 | a note is skipped exactly when every generator sounds; otherwise exactly one more does, with the shifted note |
| Mixer.Choose | work/midi/hlp/miditonesV1.6.c:844-859 | the preferred generator under strategy 2 if it is free, else the lowest free one |
| Voices.RenderScored | work/midi/hlp/miditonesV1.6.c:784-885 | for any events in order of time: the score can be cut into one piece for each, a delay of the whole milliseconds since the last and then what the event does, told of the score alone: which generators sound, which note was last started on each and where each track played last |
| Voices.KeepsVoice | work/midi/hlp/miditonesV1.6.c:844-863 | under strategy 2 a note of a track is played on the generator of the last started note of that track, generator 0 before any, whenever that one is silent |
| Voices.MsecLasts | work/midi/hlp/miditonesV1.6.c:784-792 | a delay of ms milliseconds is the whole ones: ms * 1000 * ticks <= delta * tempo < (ms + 1) * 1000 * ticks |
| Voices.ShiftedKey | work/midi/hlp/miditonesV1.6.c:867-869 | a note is shifted by the key shift, kept within 0 to 127 |
| Merge.Tune.Earliest | work/midi/hlp/miditonesV1.6.c:748-776 | the track with the earliest event, among equals the first in turn; without one the track of last time |
| Merge.Tune.Advance | work/midi/hlp/miditonesV1.6.c:784-808 | a delay of the elapsed ticks at the current tempo, refused exactly above 15 bits |
| Merge.Tune.StopNotes | work/midi/hlp/miditonesV1.6.c:819-833 | the loop over the generators emits the stops in order and frees exactly those |
| Merge.Tune.PlayNote | work/midi/hlp/miditonesV1.6.c:841-883 | the generator chosen, its command with the clamped note, and the track's preference; what that is over the whole score is `Voices.KeepsVoice` |
| Merge.Tune.Seek | work/midi/hlp/miditonesV1.6.c:748-808 | the least pending time is found and time goes on to it, or its delay does not fit 15 bits; once the tracks are dry nothing changes |
| Merge.Tune.Serve | work/midi/hlp/miditonesV1.6.c:810-885 | the event that is due is handled and its track goes on; either bytes are used up or a track finishes, or the end is exactly what `Ends` says |
| Merge.Tune.Pass | work/midi/hlp/miditonesV1.6.c:734-886 | one pass keeps the log a schedule of the tracks and the score rendered; it uses up bytes or finishes a track, or ends as `Ends` says; and once the tracks are dry it changes nothing |
| Merge.Tune.HandleStops | work/midi/hlp/miditonesV1.6.c:816-839 | the inner loop ends, and keeps the same |
| Merge.Tune.Begin | work/midi/hlp/miditonesV1.6.c:721-728 | every track stands at its first event, or one has a format error there |
| Merge.Tune.Compile | work/midi/hlp/miditonesV1.6.c:733-897 | the main loop terminates for every outcome but the endless one, which is recognised; log and outcome are those that the events decide, and a finished score is complete |
| Merge.ConvertAndPlay | work/midi/hlp/miditonesV1.6.c:733-897 | end to end: outcome, order and times are what the events of the file decide; when it finishes, the player is told exactly what these events make of the generators, all of them among those there are (`Voices.PlayedScored` tells what that is) |
| Merge.OneAnswer | work/midi/hlp/miditonesV1.6.c:733-897 | the contract of ConvertAndPlay admits one outcome and one sequence of played commands for every file |
| Voices.PlayedScored | work/midi/hlp/miditonesV1.6.c:733-897 | the same for what the player is told of any file that is converted, with one last delay and the end |
| Schedule.OneOutcome | work/midi/hlp/miditonesV1.6.c:733-886 | the events of the tracks decide the order in which they are handled, where the merge ends, and why |
| Schedule.Accounts | work/midi/hlp/miditonesV1.6.c:733-886 | nothing a track says is lost, repeated or reordered: what was handled of it and what is left make up its list |
| Schedule.InTime | work/midi/hlp/miditonesV1.6.c:766-809 | every event is handled at its own time, in order of time, and never a format error |
| Schedule.FirstInTurn | work/midi/hlp/miditonesV1.6.c:748-776 | among tracks with an event at the same time: under strategy 1 the lowest, else the first going up from behind the track served last, and round |
| Schedule.StuckExactly | work/midi/hlp/miditonesV1.6.c:748-776 | when no delay is refused and no track is malformed, the loop goes round without end if and only if an event at 0x7fffffff or later lies in a track other than the one served last before |
| Schedule.StuckByTimes | work/midi/hlp/miditonesV1.6.c:748-776 | the same by the times in the file alone: in a track other than the one with the latest event before 0x7fffffff |
| Schedule.StuckByTies | work/midi/hlp/miditonesV1.6.c:748-776 | where the search starts at track 0 and tracks share the latest time before 0x7fffffff: in a track other than the highest of these |
| Schedule.LowerFirst | work/midi/hlp/miditonesV1.6.c:748-776 | then of events at the same time those of lower tracks are handled first |
| Schedule.StuckOutsideTies | work/midi/hlp/miditonesV1.6.c:748-776 | wherever the search starts, an event at 0x7fffffff or later in a track that has none at the latest earlier time makes the loop go round without end |
| Schedule.StuckWithoutEarly | work/midi/hlp/miditonesV1.6.c:748-776 | and without any earlier event: in a track other than the first |
| Schedule.NeverStuck | work/midi/hlp/miditonesV1.6.c:748-776 | with a single track, or without such events, it always ends |
| Schedule.NeverFinished | work/midi/hlp/miditonesV1.6.c:748-776 | with such events in two tracks it never finishes |
| Schedule.NeverTooBig | work/midi/hlp/miditonesV1.6.c:784-797 | no delay is refused when every gap between consecutive events fits 15 bits of milliseconds at every tempo of the file |
| Schedule.BrokenNeverFinished | work/midi/hlp/miditonesV1.6.c:490-630 | a format error in any track keeps the conversion from finishing, and is reported only if there is one |
| MergeCases.LateIsStuck | work/midi/hlp/miditonesV1.6.c:748-776 | a file of two tracks, with any options, whose conversion never ends |
| MergeCases.SilentTune | work/midi/hlp/miditonesV1.6.c:784-809 | tracks without a byte make a score of one delay of zero |
| MergeCases.GoodFile | work/midi/hlp/miditonesV1.6.c:733-897 | without a format error, a gap that is too long and an event at 0x7fffffff or later, every file is converted |
| Score.Player.ToneChange | work/midi/midiplayer.cpp:67-103 | one interrupt carries out exactly the commands up to the next delay or the end, and leaves the player before the rest |
| Score.Player.Execute | work/midi/midiplayer.cpp:74-101 | one command is decoded to what was encoded |
| Score.Player.NextSample | work/midi/midiplayer.cpp:43-47 | the pause counts down, and the next burst follows when it is over |
| Score.Player.Perform | work/midi/midiplayer.cpp:43-103 | across all resumptions exactly the commands of the score are carried out, with one sample more than each delay asks for |
| Transfer.Endpoint.TransferFrame | lib/unix/driver/dummy_hcd.c:1346-1478 | the loop ends; at most the limit is sent; the requests of the stream are served in the order of the queue, what left one side arrived in that order at the other and nothing else was written; no request is lost and the rest of the queue keeps its order; the block and every request given back ended as their packets say; a block still in progress rests only at the end of the queue or where a request wants more than is left, which is less than a packet; only a request that a short packet ended may be given back before others, which then want more while nothing is left |
| Transfer.Endpoint.GivenInOrder | lib/unix/driver/dummy_hcd.c:1354-1364 | unless nothing is left of the frame the requests given back are the first of the stream, in the order of the queue |
| Transfer.Endpoint.OthersUntouched | lib/unix/driver/dummy_hcd.c:1354-1364 | with streams, every request of another stream is in the queue afterwards exactly if it was before, as it was, and none is given back |
| Transfer.Endpoint.StreamHas | lib/unix/driver/dummy_hcd.c:1354-1364 | every request that carries the number of the stream, or any request without streams, is one of those served in order |
| Transfer.Endpoint.StreamOnly | lib/unix/driver/dummy_hcd.c:1354-1364 | and no other |
| Transfer.Endpoint.InTurnStep | lib/unix/driver/dummy_hcd.c:1354-1470 | every look keeps that order, of requests and of bytes |
| Transfer.Endpoint.OneRequest | lib/unix/driver/dummy_hcd.c:1366-1463 | one packet, both counts, and which side ends with success or overflow |
| Transfer.Endpoint.FatesStep | lib/unix/driver/dummy_hcd.c:1406-1455 | success only after a short packet that took all that one side had, or when full packets filled the side and it owes no empty one; overflow exactly for the side that had more than the other could take; an empty packet only where one is owed |
| Transfer.Endpoint.PlanMoves | lib/unix/driver/dummy_hcd.c:1371-1397 | a short packet is all that one side still had room for, others are whole packets, and a look is put off only for want of a packet of the limit |
| Transfer.Endpoint.EmptyLook | lib/unix/driver/dummy_hcd.c:1371-1387 | with nothing left of the frame a look is taken exactly where no data is wanted or can be taken, and is an empty packet |
| Transfer.Endpoint.PerformTransfer | lib/unix/driver/dummy_hcd.c:1279-1300 | the same bytes leave one buffer and enter the other, in the direction of the pipe |
| Transfer.Endpoint.CountsAgree | lib/unix/driver/dummy_hcd.c:1416-1424 | the bytes moved are the total growth of the requests' counts, whoever holds the requests now |
| Transfer.Endpoint.StepWindows | lib/unix/driver/dummy_hcd.c:1346-1478 | the bytes that went through the requests, in their order, grow by exactly the packet |
| Gsm.Div | work/text/gsm/src/add.c:206-235 | the quotient's 15 fractional bits: div * denum <= 2^15 * num < (div + 1) * denum; 32767 for equal operands, 0 for num 0 |
| Gsm.Fraction | work/text/gsm/src/add.c:206-235 | hence the exact quotient rounded down |
| Gsm.Normalises | work/text/gsm/src/add.c:123-151 | for every non-zero 32-bit a, a shifted left by norm(a) lies in [2^30, 2^31) or [-2^31, -2^30] |
| Gsm.OnlyShift | work/text/gsm/src/add.c:123-151 | and no other shift does that for a positive a |
| Gsm.BitoffCounts | work/text/gsm/src/add.c:98-115 | the table counts the leading zeros of a byte |
| Gsm.Add | work/text/gsm/src/add.c:62-74 | the sum saturates, computed without signed overflow |
| Gsm.Sub | work/text/gsm/src/add.c:76-96 | the difference saturates, computed without signed overflow |

## Left out

- Hardware: endpoint registers, the OTG core, flash timing and busy polling, clocks, GPIO, SPI and MMC cards, I2S and DMA; endpoint traffic, flash erase and halfword programming are abstract steps.
- Input and output: sockets, HTML pages, files, ALSA; `stat` and `fread` become the contents of the file.
- Keys.HexRoundTrip: of sscanf only digits are modelled, not leading blanks, signs or a 0x prefix, since toHex prints none of these; the file name of a request runs to its end, blanks included.
- Keys.SendImage: the number of the choice is read as unsigned digits of any size; the list of images, which gives it a file, and the texts of the pages are left out.
- Pipeline.SendFw: as FwCheck.FwCheck, for a file that is not empty but ends before the descriptor's end.
- FwCheck.FwCheck: a file that is not empty but ends before the descriptor's end is outside the precondition, because the source reads the descriptor there without a test.
- HeapAllocator.Allocator.Malloc: byte addresses and the alignment of the region are not modelled; addresses count header units, and `unsigned` overflow of the request is assumed away.
- DiskSpec.DiskRefines: accesses beyond the 128 sectors are outside; in `MassSpec` they read zeros, as in the source, and write nothing.
- FlashSpec.FlashHoldsImage: each packet is written at most once between boots; a second write of different data would clear more bits.
- Fat12.Fat12Emul.Prepare: the page must fit one sector; the debug prints are not modelled.
- Fat12.Fat12Emul.CmdWrite: the call of eraseBlocks is handed to the caller as a request, since the RAM writer ignores it; `FlashWriter.FlashImage.EraseBlocks` carries it out.
- MassStorage.MsClass.HandleOut: packets longer than 31 bytes where a command block is due, data packets that are not whole, and a WRITE that gets as far as packets for blocks beyond the disk, which in the source reach memory behind their buffers, are outside.
- MassStorage.MsClass.MscGetCbw: likewise for the command block and the range of a WRITE.
- MassStorage.MsClass.CommandParser: likewise for the range of a WRITE, and of READ and VERIFY when the image does not end inside the disk.
- MassRuns.OneHonestReport: bus resets in the middle of a command and the repeated report of MSC_RewriteCSW are not part of the runs; stalls are events, without the stall and halt masks.
- UsbGenerator.Generator.BldCfg: classes and interfaces are values in arrays instead of linked objects with virtual methods; isochronous and control endpoints are not printed by the source either.
- UsbWalk.UsbDevice.ReqSetConfiguration: masks are sets of bit numbers; enabling and disabling of endpoints, alternate settings and the power status are not modelled; at most 15 endpoints.
- UsbStrings.Endpoint0.GetString: an index beyond the strings, where the source reads behind the table, is outside.
- The device descriptor, GET_STATUS, GET_CONFIGURATION, the device qualifier, class requests.
- QueueThreads.AnyInterleaving: the order of the store and the increment inside one C++ statement is fixed to store, then increment; the class instance is used by one writer and one reader.
- Transmitter.NothingStuck: the interrupt runs to its end once it has started; baud rates and the receiver are left out.
- MidiTrack.FindNote: addresses and times do not wrap, and memory beyond a track can be read; logging and the title comment are left out.
- Schedule.StuckByTimes: where tracks share the latest time before 0x7fffffff, the search goes round the tracks, and the only event too late is in one of them, which of them is served last depends on the turns before, and `StuckExactly` reads it from the log.
- Merge.Tune.Compile: the file header and the chunk headers are read elsewhere, so tracks are given as spans; one track at least, as the source's search loop needs it; text output and statistics are left out.
- Score.Player.Perform: tone synthesis and the restart command, which is never written, are left out; the interrupt follows its request at once.
- Transfer.Endpoint.TransferFrame: linear buffers only; completion callbacks enqueue and unlink nothing; toggles and timestamps are left out.
- Gsm.Div: the asserted precondition 0 <= num <= denum is required; the other operations of add.c are plain saturations or shifts.
- `FAT32RO`, `lib/unix/driver/inode.c`, the codec's filters, LED effects and vendor headers.
