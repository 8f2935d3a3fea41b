# Verified models of XiaoBaiOS user space

Dafny models of the user-space code that holds real algorithms, and proofs about them. Code that changes
things in place is modelled by classes and methods over arrays, maps and fields, each proved against a
function on values; what the code is for is then proved of that function.

- **Configuration solver** (`DepExpr`, `Iteration`, `Lattice`, `Solver`, `Convergence`, `Evaluate`): the
  dependency expressions of menuconfig, its rounds over depends, select and imply, and when they converge.
- **Installer** (`Sha256`, `Sha256Bits`, `Sha256Constants`, `Sha256Example`, `HashContext`, `Manifest`, `InstallFiles`, `InstallCopy`, `ManifestFile`,
  `VerifyInstall`, `ShellUpdate`, `LineFeedNames`, `RawWrite`): the streaming hash, the manifest, the shell
  update over a tree of files whose every call may fail, verification, and patching raw sectors.
- **C library** (`HeapLayout`, `HeapMemory`, `HeapRuns`, `ClibHeap`, `Numerals`, `Printf`, `PrintfLaws`,
  `PrintfFields`, `NumberWriter`, `PrintfEngine`, `StdioBuffer`): the allocator on linked headers in memory, scanning
  numbers, formatted output and the output buffer.
- **Editor** (`VimBuffer`, `VimFile`, `VimKeys`, `VimLaws`, `VimEditor`): the line array as flat text with an offset,
  the key handlers as a state machine, saving and loading.
- **Chunked transfer** (`Chunked`, `ChunkedLax`, `ChunkDecoder`), **glyph outlines** (`Outline`, `Rasterizer`,
  `EdgeLimit`, `GlyphBox`), **JSON** (`JsonText`, `JsonParser`, `JsonDepth`, `JsonSound`, `JsonReader`), **paths and accounts**
  (`Paths`, `PathPrefix`, `PathBuffer`, `Accounts`, `AccountStore`) and **partitions** (`Partitions`,
  `PartitionEditor`).
- `Options`, `Strings` and `Descriptor` are shared.

`Main result` in a comment marks what a reader should start from. Characters stand for bytes where the
program works on bytes.

Where the code does not do what one expects of it, the model follows the code, and the exact condition is
proved: the solver may never settle (`Convergence.ContraryNeverRests`); an update can succeed and yet not
verify, exactly when a loaded entry names the manifest or a mark (`ShellUpdate.VerifiedExactly`), as happens
with a line feed in a file name (`LineFeedNames.SucceedsUnverified`, `LineFeedNames.ResultUpdated`); shrinking a block can leave two free
neighbours (`HeapRuns.ReallocCoalesced`); merging does not look at addresses
(`HeapRuns.MergeNeedsAdjacency`); a glyph with more edges than the table leaves scanlines open exactly where
the dropped ones do not cancel out (`EdgeLimit.KeptBalanceIff`), as one within the loader's limits does (`EdgeLimit.DroppedEdgesSpill`); an added
user may be hidden by a malformed earlier line (`Accounts.AddedFound`, `Accounts.UnreadableHides`), and the next
user id may be in use once ids are exhausted (`Accounts.NextUidUnused`, `Accounts.UidsRunOut`); the chunked
decoder and the JSON parser accept more than their standards, and just what is proved (`ChunkedLax.AcceptsIff`,
`JsonSound.DocumentSound`).

## Model

| member | source | states |
|---|---|---|
| DepExpr.ParseIffDerives | scripts/menuconfig.py:352-392 | on any token list the recursive descent succeeds with a tree exactly when that tree derives by the grammar (or over and over not, brackets) and its leaves are the tokens |
| DepExpr.PrintParses | scripts/menuconfig.py:352-392 | every expression printed with brackets only where binding strength asks for them parses, and to that expression |
| DepExpr.PrintIsMinimal | scripts/menuconfig.py:352-392 | no derivation of the same expression has fewer brackets than the printed one |
| DepExpr.TextRoundTrip | scripts/menuconfig.py:322-392 | a printed expression, its tokens laid out with any legible white space, evaluates to the three-valued meaning of the expression: minimum, maximum and complement |
| DepExpr.EvalDepExpr | scripts/menuconfig.py:322-392 | tokenising, and evaluating while descending, gives the meaning of the text and fails exactly where that is undefined |
| Solver.FixpointHonours | scripts/menuconfig.py:410-484 | at a fixpoint no feature is below what selects or implies it, a bool being y where a tristate is as high as its source; one that nothing pushes is no higher than its dependency and its request; and a bool is never m |
| Solver.RequestMeans | scripts/menuconfig.py:89-110 | a request, or else the default, is brought into the range n, m, y; of a bool anything above n is y |
| Solver.RoundDeserves | scripts/menuconfig.py:410-484 | a round gives each feature exactly the value it is to have: a tristate reaches a level if selected or implied from it, or wanted at it with a dependency as high; a bool is y if selected at all, implied at y, or wanted with a dependency of y |
| Solver.FixpointIff | scripts/menuconfig.py:410-484 | the fixpoints are exactly the configurations in which every feature has the value it is to have |
| Evaluate.Raise | scripts/menuconfig.py:441-454 | the loop over a list of targets raises the floor under each listed feature to what the source pushes, and no other |
| Evaluate.Floors | scripts/menuconfig.py:436-454 | the table of floors holds for every feature the largest push of all selects and implies |
| Evaluate.Evaluate | scripts/menuconfig.py:405-493 | the loops give the configuration after the number of rounds at which nothing changes or the limit is met, and the tables of the configuration before the last round |
| Convergence.AcyclicConverges | scripts/menuconfig.py:412-484 | without a cycle of influences the answer is a fixpoint and the only one; with distinct keys in at most one round more than there are features, negation included |
| Convergence.DependenciesAloneConverge | scripts/menuconfig.py:412-484 | without negation, select or imply the answer is the greatest fixpoint, in at most 2n + 1 rounds for distinct keys |
| Convergence.PushesAloneConverge | scripts/menuconfig.py:412-484 | without dependencies the answer is the least fixpoint, at or above the request, in at most 2n + 1 rounds for distinct keys |
| Convergence.DescentConverges | scripts/menuconfig.py:412-484 | a negation-free configuration whose first round goes down ends in the greatest fixpoint below the request |
| Convergence.AscentConverges | scripts/menuconfig.py:412-484 | a negation-free configuration whose first round goes up ends in the least fixpoint above the request |
| Convergence.ContraryNeverRests | scripts/menuconfig.py:412-484 | A depending on B and selecting it, A on by default and B off: all sixteen rounds are run and the answer is no fixpoint, though two fixpoints exist |
| Sha256.PadZeros | xiaobaios/apps/install2disk_main.c:302-336 | the padding has the least number of zeros that fills whole blocks |
| Sha256.PaddingEndsInLength | xiaobaios/apps/install2disk_main.c:302-325 | a padded message ends in eight bytes that spell its length in bits (section 5.1.1 of FIPS 180-4), for every message below 2^61 bytes |
| Sha256Constants.FirstPrimes | xiaobaios/apps/install2disk_main.c:207-217 | the table of primes begins with 2 and each entry is the next prime after the one before |
| Sha256Constants.ConstantsAreRoots | xiaobaios/apps/install2disk_main.c:207-217 | each round constant is the first 32 bits of the fraction of the cube root of its prime (section 4.2.2 of FIPS 180-4) |
| Sha256Constants.InitialAreRoots | xiaobaios/apps/install2disk_main.c:274-286 | the initial hash value is the first 32 bits of the fractions of the square roots of the first eight primes (section 5.3.3) |
| Sha256Bits.ChBit | xiaobaios/apps/install2disk_main.c:219-273 | bit by bit, choice takes the second word where the first has a one, and else the third |
| Sha256Bits.MajBit | xiaobaios/apps/install2disk_main.c:219-273 | bit by bit, majority is what two of three words have |
| Sha256Bits.BigSigma0Bit | xiaobaios/apps/install2disk_main.c:219-273 | a bit of this sum is the parity of those 2, 13 and 22 places on, modulo 32 |
| Sha256Bits.BigSigma1Bit | xiaobaios/apps/install2disk_main.c:219-273 | a bit of this sum is the parity of those 6, 11 and 25 places on, modulo 32 |
| Sha256Bits.SmallSigma0Bit | xiaobaios/apps/install2disk_main.c:219-273 | a bit of this sum is the parity of those 7 and 18 places on, modulo 32, and of that 3 places on if there is one |
| Sha256Bits.SmallSigma1Bit | xiaobaios/apps/install2disk_main.c:219-273 | a bit of this sum is the parity of those 17 and 19 places on, modulo 32, and of that 10 places on if there is one |
| Sha256Example.DigestOfAbc | xiaobaios/apps/install2disk_main.c:207-336 | the digest of abc is the one that the standard gives |
| HashContext.Context.Transform | xiaobaios/apps/install2disk_main.c:207-273 | message schedule and sixty-four rounds, in place, are the compression function of section 6.2.2 of FIPS 180-4 on the block buffered |
| HashContext.Context.Update | xiaobaios/apps/install2disk_main.c:288-300 | feeding a piece makes the context stand for the message so far and that piece, wherever the message is cut |
| HashContext.Context.Final | xiaobaios/apps/install2disk_main.c:302-336 | finalising writes the digest that the standard defines for all that was fed |
| InstallFiles.Disk.HashFile | xiaobaios/apps/install2disk_main.c:343-381 | hashing a file by reads of any lengths gives the digest of its content and changes nothing; it fails only if the file is not there or a call fails |
| Numerals.ReadDigits | xiaobaios/src/libc_stdlib.c:292-310 | the digit loop finds the longest run of digits and their value, saturated, and tells whether it overflowed, for any greatest value |
| Numerals.Strtoul | xiaobaios/src/libc_stdlib.c:251-324 | strtoul reads the longest numeral after space, sign and prefix, saturates it, and negates it modulo 2^64 |
| Numerals.Strtol | xiaobaios/src/libc_stdlib.c:326-409 | strtol reads the same numeral and clamps it to the least or greatest long |
| Numerals.DecodedIsScan | xiaobaios/src/libc_stdlib.c:251-324 | scanning in base ten has exactly one result |
| Numerals.ScanDecimal | xiaobaios/src/libc_stdlib.c:251-324 | a number below 2^64 printed in decimal is scanned in full and unchanged |
| Manifest.LineKept | xiaobaios/apps/install2disk_main.c:1294-1332 | a written line of a path without bar or line feed is read as the entry it was written from |
| Manifest.LoadExact | xiaobaios/apps/install2disk_main.c:1334-1414 | a manifest within the limits loads as it was written exactly when no path in it holds a bar or a line feed |
| InstallCopy.CopyFile | xiaobaios/apps/install2disk_main.c:651-817 | a copy that succeeds gives the destination what the source held and changes nothing else; one that fails changes the destination only |
| ManifestFile.AppendEntry | xiaobaios/apps/install2disk_main.c:1100-1144 | a line is added that is true of the file as it is before the line is written |
| ManifestFile.ScanTree | xiaobaios/apps/install2disk_main.c:1146-1216 | a scan adds true entries for wanted files only, and without failing calls one for every wanted file within reach; it changes nothing but the manifest |
| ManifestFile.GenerateManifest | xiaobaios/apps/install2disk_main.c:1218-1261 | the manifest written is the rendering of entries true of their files, and of all wanted files if no call fails |
| ManifestFile.LoadManifest | xiaobaios/apps/install2disk_main.c:1334-1414 | what is loaded is what the text of the file parses to, and a missing file gives no entries if that is allowed; without failing calls nothing is loaded only if the text does not parse, or the file is missing and may not be |
| VerifyInstall.VerifyLines | xiaobaios/apps/install2disk_main.c:1676-1688 | all lines are checked, whether or not an earlier one failed; success means that each holds |
| VerifyInstall.VerifyManifest | xiaobaios/apps/install2disk_main.c:1613-1692 | verification succeeds only if the manifest is there and every line holds of its file, and without failing calls whenever that is so |
| VerifyInstall.RenderedVerifies | xiaobaios/apps/install2disk_main.c:1613-1692 | a rendered manifest verifies exactly when each of its entries is true of its file |
| ShellUpdate.Plan | xiaobaios/apps/install2disk_main.c:2667-2690 | the plan counts every new entry once as added, updated or unchanged, and without failing calls rightly |
| ShellUpdate.CopyAll | xiaobaios/apps/install2disk_main.c:2710-2722 | after the copies every path is as the last entry for it says, and only targets of new entries changed |
| ShellUpdate.DeleteObsolete | xiaobaios/apps/install2disk_main.c:2462-2510 | the target of every old entry in scope that the new entries lack is no longer a file; nothing else changed, and nothing at all in a dry run |
| ShellUpdate.WriteStateFiles | xiaobaios/apps/install2disk_main.c:2512-2539 | the mark of an update under way is on the disk and the manifest found there is kept beside it; nothing else changed |
| ShellUpdate.RefreshManifest | xiaobaios/apps/install2disk_main.c:2541-2607 | the new manifest lists, in order, the old entries of the installation that do not belong to the shell and whose files are there, and then every new entry, each true of its file but for an entry of the manifest itself |
| ShellUpdate.CleanUp | xiaobaios/apps/install2disk_main.c:2609-2619 | only the marks and the scratch manifest are removed; without failing calls the marks are gone |
| ShellUpdate.Installer.Apply | xiaobaios/apps/install2disk_main.c:2705-2738 | a run of the changing steps that succeeds gives an updated disk; one that fails leaves the mark, unless only the marking was begun |
| ShellUpdate.Installer.UpdateShell | xiaobaios/apps/install2disk_main.c:2621-2744 | an update that succeeds loads true entries of all wanted sources and leaves the disk updated, obsolete files gone; the manifest left loads as one line for each old entry carried over and one for each new entry; every old file of the installation that does not belong to the shell is still there and listed; without failing calls it verifies exactly when no new entry names the manifest or a mark; success or not, all but targets, obsolete files and its own files is untouched |
| ShellUpdate.VerifiedExactly | xiaobaios/apps/install2disk_main.c:2541-2619 | an updated disk cleared of marks verifies exactly when no new entry names the manifest, the pending manifest or the state file |
| ShellUpdate.CarriesAll | xiaobaios/apps/install2disk_main.c:2541-2607 | after an update every old entry of the installation that the shell does not own, and whose file was there before, has its file and its line in the manifest as loaded |
| ShellUpdate.PlainUpdate | xiaobaios/apps/install2disk_main.c:2621-2744 | if no scanned path holds a bar or a line feed, the updated disk verifies and every source is on it with its size and digest |
| ShellUpdate.KeepsTheRest | xiaobaios/apps/install2disk_main.c:2621-2744 | paths outside the shell areas, the four state files apart, are not among what an update may touch |
| ShellUpdate.RestExamples | xiaobaios/apps/install2disk_main.c:1051-1098 | home directories, packages, the account file and the kernel are outside the shell areas |
| LineFeedNames.SucceedsUnverified | xiaobaios/apps/install2disk_main.c:1100-1144 | sources with a line feed in a directory name, rightly scanned, load as entries that name the manifest, so that an update that succeeds on them does not verify |
| LineFeedNames.ResultUpdated | xiaobaios/apps/install2disk_main.c:2541-2744 | the disk that copying those sources and refreshing the manifest end in: all that a successful update promises holds of it, its marks are gone, and it does not verify |
| RawWrite.Window.Fetch | xiaobaios/apps/install2disk_main.c:1792-1826 | the byte fetched at a position is the file's, for any pattern of short reads, and a position at or past the last is never out of order |
| RawWrite.WriteBytes | xiaobaios/apps/install2disk_main.c:1759-1841 | a raw write that succeeds puts a slice of the file over the sectors' bytes and changes no other byte; one that fails has written a first part of it; without failing calls it fails only if the file or the disk is too short; reading is never out of order |
| HeapLayout.MallocServes | xiaobaios/src/libc_stdlib.c:433-461 | malloc fails only for size zero or if nothing fits and the system grants nothing; else it serves an aligned block at least of the size asked for and less than a split larger, apart from all live blocks |
| HeapLayout.Disjoint | xiaobaios/src/libc_stdlib.c:433-531 | blocks that tile the arena lie apart, headers included |
| HeapLayout.FreeWellFormed | xiaobaios/src/libc_stdlib.c:480-493 | freeing keeps the blocks tiling the arena |
| HeapLayout.FreeLive | xiaobaios/src/libc_stdlib.c:480-493 | freeing takes exactly the freed block from the live ones |
| HeapRuns.ReallocServes | xiaobaios/src/libc_stdlib.c:495-531 | a resize that succeeds replaces exactly the old live block by one at least of the size asked for and less than a split larger; one that fails changes nothing; the pointer stays exactly if the block is large enough, alone or with a free one behind it |
| HeapRuns.ReallocCoalesced | xiaobaios/src/libc_stdlib.c:508-531 | resizing leaves neighbouring free blocks exactly when shrinking cuts off a free block in front of a free one |
| HeapRuns.GapExample | xiaobaios/src/libc_stdlib.c:508-513 | a legal run of an allocation and a resize, from an arena as first set up, that leaves two free neighbours |
| HeapRuns.MergeNeedsAdjacency | xiaobaios/src/libc_stdlib.c:75-94 | merging covers exactly the two blocks if and only if they are adjacent, which the code does not look at |
| HeapRuns.BootSafe | xiaobaios/src/libc_stdlib.c:30-48 | an aligned arena as first set up is tiled, coalesced and has no live blocks |
| HeapRuns.RunSafe | xiaobaios/src/libc_stdlib.c:433-531 | after any legal run the blocks tile the arena, aligned, and the live ones are exactly those the caller holds |
| HeapRuns.RunCoalesced | xiaobaios/src/libc_stdlib.c:433-531 | a run in which no resize leaves such a gap never has two neighbouring free blocks; runs without realloc are such |
| HeapRuns.RunConserves | xiaobaios/src/libc_stdlib.c:50-128 | in any run, wherever chunks lie, headers and payloads together are what the arena began with and the chunks granted since |
| ClibHeap.Heap.SplitBlock | xiaobaios/src/libc_stdlib.c:50-73 | splitting on linked headers in memory is splitting on layouts; links and tail stay consistent |
| ClibHeap.Heap.MergeWithNext | xiaobaios/src/libc_stdlib.c:75-94 | merging on linked headers is merging on layouts; links and tail stay consistent |
| ClibHeap.Heap.Malloc | xiaobaios/src/libc_stdlib.c:433-461 | malloc on linked headers is malloc on layouts, and all live payloads keep their bytes |
| ClibHeap.Heap.Calloc | xiaobaios/src/libc_stdlib.c:463-478 | calloc refuses products beyond the word size, and zeroes the payload it returns |
| ClibHeap.Heap.Free | xiaobaios/src/libc_stdlib.c:480-493 | free on linked headers is free on layouts and changes no payload byte |
| ClibHeap.Heap.Realloc | xiaobaios/src/libc_stdlib.c:495-531 | realloc is realloc on layouts, keeps other payloads, and keeps the first bytes, as many as both sizes have |
| VimBuffer.InsertRefines | xiaobaios/apps/vim_main.c:194-221 | typing a character inserts it at the offset of the flat text, exactly if it is printable and the line has room; else nothing changes |
| VimBuffer.SplitRefines | xiaobaios/apps/vim_main.c:223-252 | splitting a line inserts a line feed at the offset, exactly if there is room for a line |
| VimBuffer.BackspaceRefines | xiaobaios/apps/vim_main.c:254-303 | backspace removes the byte before the offset, unless the joined line were too long; else nothing changes |
| VimBuffer.DeleteRefines | xiaobaios/apps/vim_main.c:305-325 | delete removes the byte at the offset unless it ends the line |
| VimBuffer.DeleteLineRefines | xiaobaios/apps/vim_main.c:327-355 | deleting a line removes it with one line feed, behind it or for the last line before it |
| VimBuffer.OpenRefines | xiaobaios/apps/vim_main.c:357-371 | opening a line inserts a line feed at the end of the current one |
| VimBuffer.LeftRefines | xiaobaios/apps/vim_main.c:120-131 | left moves the offset back by one, or not at the start |
| VimBuffer.RightRefines | xiaobaios/apps/vim_main.c:133-147 | right moves the offset on by one, or not at the end |
| VimBuffer.UpDownRefines | xiaobaios/apps/vim_main.c:149-171 | up and down keep the text, move by one line, and keep the column as far as the line goes |
| VimEditor.Editor.TypeChar | xiaobaios/apps/vim_main.c:194-221 | on the line array typing is typing on the buffer |
| VimEditor.Editor.Split | xiaobaios/apps/vim_main.c:223-252 | on the line array splitting is splitting on the buffer |
| VimEditor.Editor.Erase | xiaobaios/apps/vim_main.c:254-303 | on the line array backspace is backspace on the buffer |
| VimEditor.Editor.DeleteWholeLine | xiaobaios/apps/vim_main.c:327-355 | on the line array deleting a line is deleting it on the buffer |
| VimEditor.Editor.Turn | xiaobaios/apps/vim_main.c:1091-1110 | handling a key and the fix-up after it is a step of the state machine, in which a save works exactly when the file opens and refuses no write; a file saved holds the text, any other a start of it |
| VimBuffer.Coordinates | xiaobaios/apps/vim_main.c:91-106 | the line and column of the cursor are the line feeds before the offset, and the bytes since the last of them |
| VimKeys.FreshInv | xiaobaios/apps/vim_main.c:63-118 | an editor just opened has all that runs keep |
| VimKeys.RunKeepsInv | xiaobaios/apps/vim_main.c:818-1035 | after any keys there is a line, lines are short and free of line ends, the cursor is on the text and visible, and an unmodified buffer is what was last loaded or saved |
| VimKeys.QuitLosesNothing | xiaobaios/apps/vim_main.c:744-816 | unless by q!, quitting leaves no text that was not saved |
| VimLaws.TypedKey | xiaobaios/apps/vim_main.c:893-895 | in insert mode a character typed is put in at the offset if the line has room, and else nothing is done |
| VimLaws.HeldKey | xiaobaios/apps/vim_main.c:818-850 | a j is held back and changes nothing yet |
| VimLaws.LeavesByTwo | xiaobaios/apps/vim_main.c:818-850 | a second j, or the escape, leaves insert mode and changes no text |
| VimLaws.HeldComes | xiaobaios/apps/vim_main.c:818-850 | before any other key the held j is put in if there is room, and the key then does what it does without one held |
| VimLaws.BothTyped | xiaobaios/apps/vim_main.c:832-895 | with room for both a held j and the character behind it are put in |
| VimLaws.TabKey | xiaobaios/apps/vim_main.c:886-892 | a tab puts in four spaces, or as many as the line has room for |
| VimLaws.EnterKey | xiaobaios/apps/vim_main.c:876-879 | the enter key puts in a line feed at the offset, if there is room for a line |
| VimLaws.BackspaceKey | xiaobaios/apps/vim_main.c:881-884 | backspace takes out the byte before the offset, unless the joined line were too long |
| VimLaws.SideKeys | xiaobaios/apps/vim_main.c:851-930 | left and right, or h and l, move the offset by one up to the ends of the text |
| VimLaws.LineKeys | xiaobaios/apps/vim_main.c:851-938 | up and down, or k and j, move by a line and keep the column as far as the line goes |
| VimLaws.EndKeys | xiaobaios/apps/vim_main.c:868-945 | home and end, or 0 and $, move to the ends of the line |
| VimLaws.DeleteKey | xiaobaios/apps/vim_main.c:979-982 | x takes out the byte at the offset unless the line ends there |
| VimLaws.OpenKey | xiaobaios/apps/vim_main.c:972-977 | o puts in a line feed at the end of the line and goes to insert mode, if there is room for a line |
| VimLaws.InsertKeys | xiaobaios/apps/vim_main.c:957-971 | i and a go to insert mode, a one place further within the line |
| VimLaws.LastLineKey | xiaobaios/apps/vim_main.c:947-951 | G goes to the last line, as far right as the cursor was or as that line goes |
| VimLaws.FirstLineKeys | xiaobaios/apps/vim_main.c:913-920 | gg goes to the start of the text |
| VimLaws.DeleteLineKeys | xiaobaios/apps/vim_main.c:904-911 | dd takes the line out with one line feed, behind it or for the last line before it |
| VimLaws.OtherThanSecond | xiaobaios/apps/vim_main.c:904-920 | another key behind a first d or g does nothing but forget it |
| VimLaws.OtherKeys | xiaobaios/apps/vim_main.c:818-1000 | keys of no meaning in their mode do nothing |
| VimLaws.CommandRun | xiaobaios/apps/vim_main.c:744-816 | the enter key runs the command typed, less white space around it: what is saved under which name, what ends the editor, and nothing else |
| VimLaws.CommandTyped | xiaobaios/apps/vim_main.c:1000-1035 | in command mode characters join the command as there is room, backspace takes the last off, the escape leaves |
| VimFile.SaveLines | xiaobaios/apps/vim_main.c:607-649 | saving succeeds exactly if no write is refused, and then with the whole text in the file; it fails with a start of it |
| VimFile.SaveLoadRoundTrip | xiaobaios/apps/vim_main.c:607-729 | a saved buffer loads as the same lines with nothing left out |
| VimFile.LoadExact | xiaobaios/apps/vim_main.c:651-729 | a load is reported whole exactly when the lines hold all bytes but carriage returns, and the lines are good whatever the file |
| VimEditor.Editor.Load | xiaobaios/apps/vim_main.c:651-729 | loading chunk by chunk, however the reads are cut, gives the lines of the whole file |
| Chunked.SplitInvariance | xiaobaios/apps/wget_main.c:616-747 | feeding a body in pieces gives the output, state and verdict of feeding it at once, however it is cut |
| Chunked.DecodesEncoding | xiaobaios/apps/wget_main.c:598-747 | any body encoded by section 7.1 of RFC 9112, extensions and trailers included, decodes to its chunk data with the end seen, and nothing behind it is taken |
| ChunkDecoder.Decoder.TakeByte | xiaobaios/apps/wget_main.c:645-745 | a byte that is not chunk data makes the step of the byte machine, and is refused where that refuses it |
| ChunkDecoder.Decoder.Feed | xiaobaios/apps/wget_main.c:616-747 | the decoder does what the byte machine does; it fails exactly on a rejected body or a refused write, and then what is written is a start of the machine's output |
| ChunkedLax.LaxBodyRead | xiaobaios/apps/wget_main.c:616-747 | every body of the lenient form, lone line feeds, blanks in size lines and piled up carriage returns included, is read to its end and gives the data of its chunks |
| ChunkedLax.OnlyLaxBodies | xiaobaios/apps/wget_main.c:616-747 | whatever is read to its end begins with a body of that form, and the data of its chunks was put out |
| ChunkedLax.AcceptsIff | xiaobaios/apps/wget_main.c:616-747 | the decoder comes to the end of a body exactly on what begins with a body of the lenient form |
| Outline.Balanced | xiaobaios/apps/xde_main.c:569-620 | on every scanline the winding changes of all contours sum to zero, whatever their points |
| Outline.PathVisits | xiaobaios/apps/xde_main.c:569-620 | the traced path visits every on-curve point of its contour |
| Rasterizer.EdgeList.TraceContour | xiaobaios/apps/xde_main.c:536-620 | tracing adds exactly the edges of the contour's path, as far as the table has room |
| Rasterizer.EdgeList.TraceAll | xiaobaios/apps/xde_main.c:1026-1033 | tracing all contours collects the edges of the whole outline |
| Rasterizer.SortCrossings | xiaobaios/apps/xde_main.c:811-823 | insertion in place leaves the crossings arranged and all else as it was |
| Rasterizer.ArrangedKeeps | xiaobaios/apps/xde_main.c:811-861 | arranging sorts, keeps the crossings, and keeps the sum of changes at or left of any place |
| Rasterizer.InsideSpan | xiaobaios/apps/xde_main.c:849-861 | the test that stops at the first crossing further right tells whether the changes at or left of the place sum to something |
| Rasterizer.Sample | xiaobaios/apps/xde_main.c:825-861 | a sample is inside exactly when the changes of the edges crossing its scanline at or left of it do not sum to zero |
| Rasterizer.NoSpill | xiaobaios/apps/xde_main.c:825-861 | if all edges fit, no sample left of all crossings of its scanline, or right of all, is inside |
| Rasterizer.FitsIff | xiaobaios/apps/xde_main.c:536-546 | no edge was dropped exactly when the outline has no more edges than the table |
| EdgeLimit.KeptBalanceIff | xiaobaios/apps/xde_main.c:536-546 | over the edges kept the winding changes of a scanline are those of the dropped ones with the sign turned, so they cancel out exactly if those do |
| EdgeLimit.StraightFits | xiaobaios/apps/xde_main.c:632-660 | a glyph that the loader takes and that has no point off the curve never has more edges than the table |
| EdgeLimit.DroppedEdgesSpill | xiaobaios/apps/xde_main.c:536-660 | a glyph of 33 contours and 99 points, within what the loader takes, has 515 edges, three more than the table holds; all of them cancel out on a scanline and those kept do not |
| GlyphBox.CrossingTruncates | xiaobaios/apps/xde_main.c:825-847 | an edge crosses a scanline at the exact intersection, its distance from the first end without the fraction |
| GlyphBox.CrossingBetween | xiaobaios/apps/xde_main.c:825-847 | a crossing lies between the ends of its edge |
| GlyphBox.QuadTruncates | xiaobaios/apps/xde_main.c:548-551 | a step of a curve is the weighted mean of its three points without the fraction |
| GlyphBox.CurveTraced | xiaobaios/apps/xde_main.c:553-620 | between two points on the curve a point off it bends the path in eight such steps |
| GlyphBox.InkInBox | xiaobaios/apps/xde_main.c:825-861 | if all edges fit, whatever is inside lies in any box that holds the points |
| PrintfLaws.FormatsJoin | xiaobaios/src/stdio.c:507-831 | a format joined to one that ends in no field prints what the two print, one behind the other |
| PrintfLaws.CutFormatDoesNot | xiaobaios/src/stdio.c:588-590 | a format that ends inside a field prints less alone than joined |
| PrintfLaws.NumberWidth | xiaobaios/src/stdio.c:616-794 | a number field is exactly as wide as asked, or as its sign and digits with the zeros of its precision if those are longer |
| PrintfLaws.FieldReads | xiaobaios/src/stdio.c:616-794 | whatever flags, width and precision, scanning a number field in its base gives back the number as a 64-bit word |
| PrintfLaws.WideIsWhole | xiaobaios/src/stdio.c:616-794 | a 64-bit conversion or a pointer shows the whole word |
| PrintfLaws.SignedFieldReads | xiaobaios/src/stdio.c:616-692 | a signed scan of a signed field gives back the number, the least of all included |
| PrintfLaws.PlainDecimal | xiaobaios/src/stdio.c:693-749 | %llu prints the decimal that manifests are written with |
| PrintfFields.StringField | xiaobaios/src/stdio.c:592-606 | a string field shows as many first characters as its precision lets it, with spaces on the side asked for up to its width; a null string shows as (null) |
| PrintfFields.CharField | xiaobaios/src/stdio.c:607-615 | a character field shows the low byte of its argument in spaces likewise |
| PrintfFields.NumberMeans | xiaobaios/src/stdio.c:616-749 | the number shown is congruent to the bits of the argument and in the range of its width, with a sign or without |
| PrintfFields.NumberField | xiaobaios/src/stdio.c:616-794 | a number field is spaces, a sign or mark, zeros, digits without leading zeros in the case asked for, and spaces: spaces on the side asked for and only to fill the width, zeros only to fill the precision or, if asked for, the width |
| PrintfFields.FieldRead | xiaobaios/src/stdio.c:533-590 | a field is read as it is written: flags, width and precision modulo 2^64, length and conversion, whatever comes behind it |
| PrintfFields.FieldPrints | xiaobaios/src/stdio.c:592-813 | a field alone prints its text; one of an unknown conversion prints the conversion behind a percent sign |
| PrintfFields.OrdinaryPrints | xiaobaios/src/stdio.c:507-532 | an ordinary character prints itself, and two percent signs one |
| PrintfFields.CountStored | xiaobaios/src/stdio.c:794-804 | a count field behind a format prints nothing and stores the length so far, as an int |
| PrintfFields.ManifestLine | xiaobaios/apps/install2disk_main.c:1121-1125 | the format that manifests are written with prints the line of an entry, for every entry |
| NumberWriter.U64ToBase | xiaobaios/src/stdio.c:401-441 | the digits of a number are written most significant first with a terminator, or nothing is returned if they do not fit |
| NumberWriter.I64ToDec | xiaobaios/src/stdio.c:443-469 | a signed number is written with its sign, the least of all included |
| PrintfEngine.ReadSpec | xiaobaios/src/stdio.c:533-590 | flags, width, precision and length are read as the format means them, and a field cut off by the end is told |
| PrintfEngine.Sink.Emit | xiaobaios/src/stdio.c:367-399 | emitting extends the text: all of it to a file, or to a buffer what fits before its last byte; the count always grows by the whole |
| PrintfEngine.Sink.EmitWithWidth | xiaobaios/src/stdio.c:486-505 | a text is filled with spaces to its width on the side asked for |
| PrintfEngine.Sink.EmitSigned | xiaobaios/src/stdio.c:616-692 | a signed field is emitted as defined: sign before zeros, spaces before the sign |
| PrintfEngine.Sink.EmitField | xiaobaios/src/stdio.c:592-813 | each conversion emits its field, takes its argument, and %n stores the count so far |
| PrintfEngine.Sink.Format | xiaobaios/src/stdio.c:507-831 | the walk over a format emits the text it means, stores its counts, and returns the length as an int; a failed write leaves the start of the text |
| PrintfEngine.Vsnprintf | xiaobaios/src/stdio.c:342-365 | vsnprintf returns the length of the whole text and stores as much as fits before a terminator, for every size, none and a null buffer included; all else of the buffer stays |
| PrintfEngine.Vdprintf | xiaobaios/src/stdio.c:940-951 | printing to a file writes the same text, or fails after a start of it |
| PrintfEngine.SameBytes | xiaobaios/src/stdio.c:916-951 | what the buffer holds before its terminator is the start of what the file gets |
| StdioBuffer.Stream.Flush | xiaobaios/src/stdio.c:165-177 | a flush writes all that waits; if the file refuses, a start of it |
| StdioBuffer.Stream.Write | xiaobaios/src/stdio.c:179-233 | what is written through the buffer comes behind all that was, in the file or waiting; a failure leaves a start of it in the file; short texts wait |
| StdioBuffer.Stream.Puts | xiaobaios/src/stdio.c:902-914 | puts writes the text and a line feed, and counts both |
| Paths.RenderKept | xiaobaios/apps/cmd_runtime.c:366-470 | taking a rendered path apart gives the components it was rendered from |
| Paths.ResolvedCanonical | xiaobaios/apps/cmd_runtime.c:366-493 | a resolved path has no dot, dot-dot or empty component and no trailing slash |
| Paths.Idempotent | xiaobaios/apps/cmd_runtime.c:472-493 | a canonical path that fits resolves to itself from anywhere |
| Paths.Compositional | xiaobaios/apps/cmd_runtime.c:472-493 | a relative path behind another resolves as the first and then the rest against that, with the same verdict |
| Paths.ComponentLeads | xiaobaios/apps/cmd_runtime.c:366-493 | against a directory a dot stays, a name leads below it if that fits, and two dots lead back up, at the root nowhere |
| Paths.FromRoot | xiaobaios/apps/cmd_runtime.c:424-493 | a path with a slash in front is resolved from the root, and no path at all is where one is |
| Paths.UnderIff | xiaobaios/apps/cmd_runtime.c:555-607 | on canonical paths the prefix test on strings is the prefix test on components |
| Paths.MayModifyIff | xiaobaios/apps/cmd_runtime.c:609-627 | of resolved paths a user other than root may change exactly those below the shared area or the own home |
| PathBuffer.Buffer.Push | xiaobaios/apps/cmd_runtime.c:366-399 | a component is pushed exactly if the longer path fits the buffer |
| PathBuffer.Buffer.Pop | xiaobaios/apps/cmd_runtime.c:401-422 | popping takes the last component off, and at the root nothing |
| PathBuffer.Buffer.ResolvePath | xiaobaios/apps/cmd_runtime.c:424-493 | resolution in one buffer succeeds exactly when every path on the way fits, and leaves the path of the component stack |
| AccountStore.NextLine | xiaobaios/apps/cmd_runtime.c:944-982 | the next line is what a line buffer holds of it, cut to length and at carriage returns |
| AccountStore.ParseFields | xiaobaios/apps/cmd_runtime.c:921-942 | splitting at colons gives the fields between them |
| AccountStore.ParseU64Dec | xiaobaios/apps/cmd_runtime.c:173-200 | a decimal is read exactly if it has only digits and fits 64 bits |
| AccountStore.LookupPasswd | xiaobaios/apps/cmd_runtime.c:1041-1095 | the line walk finds the record that the text gives for a name |
| AccountStore.ComputeNextUid | xiaobaios/apps/cmd_runtime.c:1423-1467 | the line walk gives one more than the greatest id parsed |
| AccountStore.Store.AddUser | xiaobaios/apps/cmd_runtime.c:1469-1547 | a user is added only under a valid name that looks up to nothing, by one line in each file; both files were read whole and can be again, and lookups in them are as for an added user; without failing calls a valid new name is refused for want of room only; unless a write failed, the second file is then as it was and the first at most has the line |
| AccountStore.UserIsAdded | xiaobaios/apps/cmd_runtime.c:1469-1547 | of the files with the lines added: the name looks up to the record exactly if it was not listed and is plain, other names look up as before, an unused id finds the record, stored passwords stay and the new name is locked |
| AccountStore.AddedFits | xiaobaios/apps/cmd_runtime.c:1500-1547 | a line fits behind what was read of a file only if the file was read whole |
| Accounts.AddedFound | xiaobaios/apps/cmd_runtime.c:1469-1547 | the added name looks up to the stored record exactly when no earlier line is listed under it and the record has no colon or line end |
| Accounts.PasswdLineIs | xiaobaios/apps/cmd_runtime.c:1469-1547 | the line of a record is its name, an x, both ids in decimal, nothing, home and shell, between colons |
| Accounts.UnreadableHides | xiaobaios/apps/cmd_runtime.c:1041-1095 | a line of the name with an id that cannot be read lets the name be added, after which it looks up to nothing |
| Accounts.OthersFound | xiaobaios/apps/cmd_runtime.c:1469-1547 | all other names look up as before, even if the file lacked its last line feed |
| Accounts.NextUidUnused | xiaobaios/apps/cmd_runtime.c:1423-1467 | the next id is used only if the greatest id there can be is, and 0 too |
| Accounts.UidsRunOut | xiaobaios/apps/cmd_runtime.c:1423-1467 | a file with ids 0 and 2^64 - 1 gives a next id that is used |
| Accounts.AddedFoundByUid | xiaobaios/apps/cmd_runtime.c:1097-1147 | a plain user added with an unused id is the one found by that id |
| Accounts.ShadowAdded | xiaobaios/apps/cmd_runtime.c:1469-1547 | adding a user leaves every stored password as it was, and locks the new name unless it had one |
| JsonText.Utf8Kept | xiaobaios/apps/pkg_cjson_min.c:86-117 | every code point is recovered from its UTF-8 bytes (section 3 of RFC 3629) |
| JsonText.EmitUtf8 | xiaobaios/apps/pkg_cjson_min.c:86-117 | the bytes of a code point are stored exactly if it is one and they fit |
| JsonText.SpelledRead | xiaobaios/apps/pkg_cjson_min.c:119-211 | any spelling of a text by section 7 of RFC 8259, surrogate pairs included, decodes to its UTF-8 bytes |
| JsonReader.Reader.ParseString | xiaobaios/apps/pkg_cjson_min.c:119-211 | the in-place reader decodes as its units say, and the buffer sized once beforehand is never too small |
| JsonReader.Reader.ParseNumber | xiaobaios/apps/pkg_cjson_min.c:215-262 | a number is read as its integer part; fraction and exponent are passed over |
| JsonDepth.DocumentReadIff | xiaobaios/apps/pkg_cjson_min.c:264-424 | a document in any layout and spelling parses to what it means exactly if nested no deeper than the limit, whatever follows a NUL behind it unless the mode is strict |
| JsonSound.DocumentSound | xiaobaios/apps/pkg_cjson_min.c:264-482 | whatever is accepted is white space around a text of the value: brackets around parts with commas, keys with colons, strings of bytes and escapes, numbers of sign, digits, fraction and exponent, nested no deeper than the limit |
| JsonReader.Reader.Parse | xiaobaios/apps/pkg_cjson_min.c:446-482 | the reader gives a document's value exactly when it has one, in strict mode with nothing but white space behind it and else with anything that begins with NUL allowed, and the depth is as before, success or not |
| Partitions.U32RoundTrip | xiaobaios/apps/partctl_main.c:11-21 | a 32-bit number put into a sector byte by byte is read back |
| Partitions.DisjointIff | xiaobaios/apps/partctl_main.c:179-208 | the overlap test is that of nonempty half-open intervals |
| Partitions.EntryLies | xiaobaios/apps/partctl_main.c:114-160 | the entries of a boot record are read from byte 446 on, flag, kind, start and size least byte first, and the signature from byte 510 |
| Partitions.PerformMeans | xiaobaios/apps/partctl_main.c:210-379 | the bytes a command leaves decode, entry by entry, to what it is for, and carry the signature |
| Partitions.CreateAcceptsIff | xiaobaios/apps/partctl_main.c:294-379 | create accepts a request in range exactly when it is disjoint from all other nonempty partitions |
| Partitions.CommandKeepsGood | xiaobaios/apps/partctl_main.c:210-379 | every command keeps signature, disjoint partitions inside the disk, and at most one active flag |
| Partitions.RunFromBlank | xiaobaios/apps/partctl_main.c:210-379 | so does every run of commands on an initialised sector |
| Partitions.DeleteUndoesCreate | xiaobaios/apps/partctl_main.c:228-379 | deleting a partition just created in an empty slot gives all entries back, but for the active flags a bootable one cleared |
| PartitionEditor.CheckOverlap | xiaobaios/apps/partctl_main.c:179-208 | the loop finds an overlap exactly if there is one |
| PartitionEditor.InitTable | xiaobaios/apps/partctl_main.c:210-226 | an initialised table is the blank sector with its signature, and no other sector changes; it fails only if the disk does or has no sector |
| PartitionEditor.Execute | xiaobaios/apps/partctl_main.c:210-379 | a command that succeeds was acceptable and changes sector 0 to what it performs; one that fails changes nothing, and without failing calls was not acceptable or had no sector to work on |

## Left out

- HeapLayout.MallocServes: requests within 64 bytes of 2^64 are excluded, where the size computations wrap.
- HeapRuns.RunSafe: chunks are taken to extend the arena at its end; for others only `HeapRuns.RunConserves` and `HeapRuns.MergeNeedsAdjacency` are stated.
- ClibHeap.Heap.Malloc: what fresh chunks hold is not modelled, and blocks are reached by their headers' addresses in a map of bytes and a map of headers.
- Floating point (`strtod`, the mathematics library), random numbers, `atexit` and process calls of the C library.
- PrintfEngine.Sink.Format: arguments are of the kind their conversion asks for, as C demands; lengths of 2^64 and more, at which the counters wrap, are not modelled; redirection of output to a capture file is left out.
- StdioBuffer.Stream.Write: the stream alone; formatted output goes past it to the file, so the order of the two is not kept by the program and not claimed here.
- StdioBuffer.Stream.Puts: the sum one beyond the greatest int is not wrapped.
- VimEditor.Editor.Turn: rendering, the status line, the terminal's key codes and path resolution are left out; the path a name resolves to is a parameter.
- ChunkDecoder.Decoder.Feed: the count of bytes in one trailer line is unbounded, where the program's is 64 bits wide; reading from the network is left out.
- InstallFiles.Disk.HashFile: files are shorter than 2^61 bytes, names are exact, a read returns nothing only at the end of the file, and a call that tells of a file's kind does not fail.
- ManifestFile.GenerateManifest: the write of no bytes that makes a file empty is taken to report success as the program expects.
- ShellUpdate.Installer.UpdateShell: progress, messages and counters of copied bytes are left out; mounting is a grant that may be refused; when an update must succeed is not stated, only what success and failure mean.
- The other installer commands: partitioning and full install, the kernel update, repair, prompts, boot-sector checks.
- RawWrite.WriteBytes: positions at 2^64 - 1 and beyond are excluded.
- Rasterizer.EdgeList.TraceContour: coordinates are unbounded integers; the program's are 32 bits wide. Loading glyph tables, scaling and mixing samples to pixels are left out.
- JsonReader.Reader.Parse: the nesting limit is a parameter, since cJSON.h is not part of this model; running out of memory and the linking of children are left out.
- JsonReader.Reader.ParseNumber: the value is unbounded; near 2^31 the program's integer overflows.
- PartitionEditor.Execute: reading arguments and printing tables are left out; a command comes as a value.
- AccountStore.Store.AddUser: a write that is accepted takes all of the text; the group file, password hashing and changing a password are left out.
- Evaluate.Evaluate: reading feature files, drawing menus and writing the results are left out.
- Network, TLS, image, window and terminal code, and the users of libraries that are not shown.
