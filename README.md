# Profile symbolication and update-tool parsing, in Dafny

This project models two parts of the B2G (Firefox OS) developer tools.

**Profile symbolicator** (`scripts/profile-symbolicate.py`). A Gecko profile captured on a phone
holds raw return addresses. The symbolicator does the following:

- It scans the profile for those addresses, in one of two layouts:
  - version 2: the frame locations of every sample;
  - version 3: every thread's string table.
- It finds the library of each address. The search is a binary search over the libraries sorted by
  start address, with a one-entry cache in front of it.
- It records the address in that library as a pending "0x%08x" key.
- It resolves the pending keys, in one of two ways:
  - locally, library by library, in windows of 256;
  - in one request to a symbol server.
- It takes the union of every library's symbols.

A library is resolved locally in one of four ways:

- by an embedded table ("[vectors]"), looked up with `bisect`;
- through a Breakpad resolver (`fixSymbols`), whose answers are shortened to "symbol @ file";
- through `addr2line`, with `nm-symbolicate` as the fallback;
- or, when no host file is found, as "Unknown".

Two normalisations of a return address appear here:

- `fixupAddress`: `((address - start + offset) & ~1) - 1`;
- the same value floored at zero, on the addr2line path.

**Update tools** (`tools/update-tools/update_tools.py`). The project models the parsing parts:

- `RecoveryFSTab`: version detection and the two `recovery.fstab` layouts;
- `AdbTool`: the `adb devices` listing and `/proc/<pid>/cmdline`;
- `MarTool`: the `mar -t` listing, and whether a MAR is a FOTA or a Gecko update;
- the checks and defaults of `UpdateXmlBuilder.__init__`.

Python's `None` and exceptions become `Option` and `Result` (module `Wrappers`). Python's string
primitives are written out in module `PyStr`:

- `split`, `split()` and `re.split(r"\s+")`;
- `splitlines` and `strip`;
- `os.path.basename`;
- string `<`;
- `int()`.

State the source changes in place is a Dafny class:

- `Lib.Library`: the `symbols` dictionary and what `Locate` sets;
- `Registry.Libraries`: the cache `last_lib`.

Loops become methods proved against a specification function, for example:

- `ScanV2` against `ScanV2Spec`;
- `ReadV1` against `Collect(content, LineV1)`.

The properties are then proved about those functions.

`Remote.Fixup` is generic over the address normalisation, and `Mar.EntriesBy` over the line
classifier. The lemmas about them hold for any function passed in. The model uses them with
`Addresses.FixupAddress` and `Mar.EntryOfLine`.

Points where the model follows the letter of the code:

- **Table lookup.** The embedded table is searched with the raw address string, compared as a
  string. It is not searched with the normalised offset.
- **SymbolicationTable.** `dict.update` over the libraries in start order lets a later library win
  a key two libraries share.
- **Version 1 options.** In `read_v1`, the `len(pieces) >= 5` branch cannot run after the 3-4
  field check, so options come only from a fourth field that does not start with "/".
- **Missing MAR.** `UpdateXmlBuilder` tests `is None`, so an empty MAR name counts as given.

## Model

| member | source | states |
|---|---|---|
| Addresses.ParseAddress | scripts/profile-symbolicate.py:21 | int(s, 0) on an address succeeds exactly when the stripped text is "0x" or "0X" followed by at least one hex digit; the value is then non-negative; every other text, signed hex included, is a ValueError in the model |
| Addresses.KeyForShape | scripts/profile-symbolicate.py:113 | a pending key "0x%08x" is "0x" and at least eight lower-case hex digits, exactly eight for addresses below 2^32 |
| Addresses.KeyForRoundTrip | scripts/profile-symbolicate.py:113 | int(key, 0) reads the address back from its key |
| Addresses.KeyForInjective | scripts/profile-symbolicate.py:113 | two different addresses never share a pending key |
| Addresses.FormatAddressSpec | scripts/profile-symbolicate.py:24-25 | "0x{:X}": after "0x" come the address's upper-case hex digits without leading zeros, or a minus sign and the digits of its magnitude |
| Addresses.ClearLowBit | scripts/profile-symbolicate.py:22 | x & ~1 is even and lies in [x - 1, x] |
| Addresses.FixupOffset | scripts/profile-symbolicate.py:20-22 | the normalised offset is odd and one or two below address - start + offset |
| Addresses.FixupAddress | scripts/profile-symbolicate.py:20-22 | fixupAddress succeeds exactly when int(address, 0) does, and gives the normalised offset of that number |
| Addresses.AdjustedOffset | scripts/profile-symbolicate.py:80-85 | max(0, (lib_address & ~1) - 1) is at least fixupAddress's value and equals either it or 0 |
| Addresses.FixupOfKey | scripts/profile-symbolicate.py:332 | normalising a stored key gives the normalised offset of the address the key was made from |
| Addresses.BisectRange | scripts/profile-symbolicate.py:296 | the bisect_right loop between lo and hi keeps every element before the result <= x and every one from it on > x |
| Addresses.BisectRight | scripts/profile-symbolicate.py:296 | bisect.bisect on a sorted list: every element before the result is <= x and every one from it on is > x |
| Numerals.ToDigitsSpec | scripts/profile-symbolicate.py:25 | the digits denote the number, have no leading zero and are of the requested letter case |
| Numerals.LeadingZerosValue | scripts/profile-symbolicate.py:113 | zero padding does not change the value of a digit string |
| PyStr.Split | tools/update-tools/update_tools.py:254 | str.split(sep) gives at least one piece and no piece holds the separator |
| PyStr.JoinSplit | tools/update-tools/update_tools.py:250 | joining the pieces of a split with the separator gives back the string |
| PyStr.SplitJoin | tools/update-tools/update_tools.py:254 | splitting a join of separator-free pieces gives back the pieces |
| PyStr.StripTrims | tools/update-tools/update_tools.py:839 | strip() leaves a string that neither starts nor ends with whitespace, cut out of the original between two runs of whitespace |
| PyStr.LStripRemovesSpace | tools/update-tools/update_tools.py:839 | lstrip() removes a whitespace prefix and nothing else |
| PyStr.RStripRemovesSpace | tools/update-tools/update_tools.py:839 | rstrip() removes a whitespace suffix and nothing else |
| PyStr.Fields | tools/update-tools/update_tools.py:842 | split() with no argument gives non-empty whitespace-free words |
| PyStr.SplitOnSpaceRuns | tools/update-tools/update_tools.py:273 | re.split(r"\s+") gives whitespace-free pieces, the first empty exactly when the text is empty or starts with whitespace |
| PyStr.FieldsAreNonEmptyPieces | tools/update-tools/update_tools.py:273 | the words of split() are exactly the non-empty pieces of re.split(r"\s+") |
| PyStr.SplitLines | tools/update-tools/update_tools.py:272 | splitlines() gives lines without line breaks, and none exactly for the empty text |
| PyStr.SplitLinesJoinLines | tools/update-tools/update_tools.py:272 | splitlines() gives back the lines of a newline-terminated text |
| PyStr.BasenameIsTail | scripts/profile-symbolicate.py:145 | os.path.basename is the tail after the last "/", or the whole path when there is none |
| PyStr.LexLtTransitive | scripts/profile-symbolicate.py:203 | Python's string < is transitive |
| PyStr.LexLtTotal | scripts/profile-symbolicate.py:203 | of two different strings one is below the other |
| PyStr.LexLtAsymmetric | scripts/profile-symbolicate.py:203 | string < never holds both ways |
| PyStr.ParseInt | tools/update-tools/update_tools.py:878 | int(s) succeeds exactly when the stripped text is an optional sign and decimal digits |
| PyStr.ParseIntToString | tools/update-tools/update_tools.py:878 | int() reads back what str() writes, for every integer |
| Wrappers.FirstFailure | scripts/profile-symbolicate.py:250 | the position where a map over computations raises: a failure whose prefix all succeeded, and none exactly when all succeed |
| SymbolTable.SpecialLib | scripts/profile-symbolicate.py:184-186 | a library has an embedded table exactly when it is "[vectors]", and that table's key list is its keys in strictly ascending order |
| SymbolTable.VectorsTableValid | scripts/profile-symbolicate.py:6-16 | the five kernel-helper keys, as listed, are sorted(symbol_table.keys()) |
| SymbolTable.Bisect | scripts/profile-symbolicate.py:200 | bisect.bisect over sorted strings: keys before the result are <= x and keys from it on are > x |
| SymbolTable.LastAtMost | scripts/profile-symbolicate.py:198-207 | reference definition: the last position whose key is <= x, every later key being > x, or none when every key is above x |
| SymbolTable.LookupAddress | scripts/profile-symbolicate.py:198-207 | the symbol of the last key not above the address string, or "Unknown" below the smallest key, followed by " (in <name>)" |
| SymbolTable.BisectFindsLastAtMost | scripts/profile-symbolicate.py:200-203 | the key just below the bisection point is the last key <= x when it is <= x, and otherwise no key is |
| SymbolTable.LastAtMostIsGreatest | scripts/profile-symbolicate.py:203-204 | on sorted keys the last key <= x is the greatest key <= x |
| SymbolTable.LastAtMostBetween | scripts/profile-symbolicate.py:200-204 | an x in [keys[g], keys[g + 1]) has g as its last key <= x |
| SymbolTable.LastAtMostBelowFirst | scripts/profile-symbolicate.py:205-206 | an x below the first key has no key <= x |
| SymbolTable.LookupAddresses | scripts/profile-symbolicate.py:209-214 | one symbol per address |
| SymbolTable.LookupAddressesAt | scripts/profile-symbolicate.py:209-214 | symbol i of the batch is the lookup of address i |
| SymbolTable.VectorsExample | scripts/profile-symbolicate.py:10-11 | 0xffff0f75, between the first two helpers, resolves to "__kernel_cmpxchg64 (in [vectors])" |
| SymbolTable.VectorsBelowSmallest | scripts/profile-symbolicate.py:205-206 | every address string that sorts below the first helper's address resolves to "Unknown (in [vectors])" |
| Breakpad.DropNewline | scripts/profile-symbolicate.py:236-237 | at most one final "\n" is removed, and one is removed when present |
| Breakpad.MatchSymbolPath | scripts/profile-symbolicate.py:18 | a match splits the text (less one final newline) into group 1 + " [" + group 2 + "]"; group 1 is not empty, neither group has a newline, and the greedy group 1 leaves no " [" in group 2 |
| Breakpad.MatchOfSourceForm | scripts/profile-symbolicate.py:18 | every "<name> [<path>]" with or without a final newline matches, with the groups (name, path) when the path has no " [" |
| Breakpad.NoMatchWithoutClosingBracket | scripts/profile-symbolicate.py:18 | a text that does not end in "]" (before one newline) never matches |
| Breakpad.FixSymbol | scripts/profile-symbolicate.py:227-248 | a bad address fails; an answer equal to the query is "??"; an empty answer is an IndexError; any other answer ends in " (in <target>)" |
| Breakpad.FixSymbolOfSourcePath | scripts/profile-symbolicate.py:243-248 | an answer "<name> [<path>]" (up to two newlines) becomes "<name> @ basename(<path>) (in <target>)" |
| Breakpad.FixSymbolOfEcho | scripts/profile-symbolicate.py:234-235 | a resolver that echoes the query gives a bare "??" without the library suffix |
| Breakpad.FixSymbolOfPlainAnswer | scripts/profile-symbolicate.py:236-248 | an answer without a source path and without a final newline is kept, with the suffix appended |
| Breakpad.ShortenOfSourceForm | scripts/profile-symbolicate.py:243-247 | the source path of a "<name> [<path>]" answer is cut down to its base name |
| Breakpad.ShortenOfPlainText | scripts/profile-symbolicate.py:243-244 | text that does not end in "]" is not shortened |
| Resolution.ParseAll | scripts/profile-symbolicate.py:80 | one parse result per address |
| Resolution.ParseAllAt | scripts/profile-symbolicate.py:80 | parse result i is int(address i, 0) |
| Resolution.OffsetKeys | scripts/profile-symbolicate.py:79-87 | one key per address |
| Resolution.OffsetKeysAt | scripts/profile-symbolicate.py:85-87 | key i is "0x%08x" of address i's floored normalised offset |
| Resolution.RunTool | scripts/profile-symbolicate.py:94 | check_output fails exactly when the tool does, and otherwise gives its output split at "\n" |
| Resolution.EveryOtherLine | scripts/profile-symbolicate.py:105-107 | succeeds exactly when line 2(n - 1) exists, and then symbol i is line 2i plus the suffix |
| Resolution.FixSymbols | scripts/profile-symbolicate.py:250 | a successful map has one symbol per address |
| Resolution.FixSymbolsAt | scripts/profile-symbolicate.py:250 | symbol i of a successful map is fixSymbol(address i) |
| Resolution.FixSymbolsFails | scripts/profile-symbolicate.py:250 | one failing fixSymbol makes the whole map fail |
| Resolution.Resolve | scripts/profile-symbolicate.py:66-108 | a successful batch has one symbol per address |
| Resolution.ResolveByTable | scripts/profile-symbolicate.py:66-67 | with an embedded table every address is a table lookup, in order |
| Resolution.ResolveWithoutHost | scripts/profile-symbolicate.py:68-70 | without a host file every address is "Unknown (in <target>)" |
| Resolution.ResolveByTools | scripts/profile-symbolicate.py:94-107 | on the addr2line path symbol i is line 2i of addr2line's output, and nm-symbolicate is run only when no addr2line line is useful |
| Resolution.ToolSymbolsAreSuffixed | scripts/profile-symbolicate.py:105-107 | every symbol of the addr2line path names the library with " (in <target>)" |
| Lib.FindResult | scripts/profile-symbolicate.py:135-140 | FindLibInTree gives None exactly for empty output, and otherwise the output without one final newline |
| Lib.LocateOutcome | scripts/profile-symbolicate.py:142-196 | only "[vectors]" gains a table, with its host name unchanged; only an existing absolute path has its target renamed, to its base name with the path as host; only a "/system" library can end the program |
| Lib.LocateTableOnlyForVectors | scripts/profile-symbolicate.py:184-186 | Locate leaves a table exactly for "[vectors]" |
| Lib.KeysOf | scripts/profile-symbolicate.py:256 | symbols.keys() lists every key of the dictionary exactly once, in some order |
| Lib.Window | scripts/profile-symbolicate.py:257-258 | position n is resolved in the slice of at most 256 keys from n // 256 * 256 |
| Lib.Library.constructor | scripts/profile-symbolicate.py:43-56 | start, end, offset, name and id come from the descriptor; nothing is located and nothing is pending |
| Lib.Library.AddUnresolvedAddress | scripts/profile-symbolicate.py:110-113 | the address's "0x%08x" key is set to None, and nothing else changes |
| Lib.Library.Locate | scripts/profile-symbolicate.py:142-196 | the library takes the placement of LocateOutcome and is located; a fatal exit leaves it unchanged |
| Lib.Library.LookupAddressesInSymbolTable | scripts/profile-symbolicate.py:209-214 | the loop gives the table lookup of every address, in order |
| Lib.Library.LookupAddressesWithTools | scripts/profile-symbolicate.py:74-108 | the addr2line path's loops give exactly the batch resolution of the addresses |
| Lib.Library.AddressesToSymbols | scripts/profile-symbolicate.py:62-108 | the library is located on first use only, then the batch is resolved by table, host or tools; symbols stay as they are |
| Lib.Library.AddressToSymbol | scripts/profile-symbolicate.py:58-60 | a single address is the first symbol of the batch of one, under the placement it had or, on first use, the one Locate found |
| Lib.Library.ResolveWindow | scripts/profile-symbolicate.py:257-263 | one window resolves keys[i..i+256] and writes its symbols to those keys, keeping earlier windows' results; the placement is kept once located, and on first use is what Locate found |
| Lib.Library.WriteBack | scripts/profile-symbolicate.py:262-263 | symbol j goes to key i + j, and every other key keeps its value |
| Lib.Library.ResolveSymbols | scripts/profile-symbolicate.py:252-263 | no key is added or lost; on success every key has a symbol, namely the one its window of 256 resolved it to; when a window fails, every key of the windows before it already holds its symbol; the placement is kept once located, and on first use is what Locate found |
| Lib.WindowWritten | scripts/profile-symbolicate.py:261-263 | after a window is written, each of its positions holds its window's symbol |
| Lib.HasGoodLine | scripts/profile-symbolicate.py:98-101 | the loop finds a line other than "??", "??:0" and "" exactly when there is one |
| Lib.EveryOtherLine | scripts/profile-symbolicate.py:105-107 | the loop computes EveryOtherLine, IndexError included |
| Lib.OffsetKeysOf | scripts/profile-symbolicate.py:79-87 | the loop stops at the first address int() rejects, and otherwise gives the keys of every address |
| ProfileScan.Candidates | scripts/profile-symbolicate.py:378-381 | every candidate location starts with a lower-case "0x" |
| ProfileScan.ScanV2IsParseOfCandidates | scripts/profile-symbolicate.py:370-383 | the version 2 scan parses the "0x" locations that differ from the one yielded last, in order, and stops at the first bad one |
| ProfileScan.CandidatesHaveNoRepeats | scripts/profile-symbolicate.py:379-383 | no yielded location equals the one yielded before it |
| ProfileScan.ScanV2 | scripts/profile-symbolicate.py:370-383 | the loop over the flattened frame locations of every sample of every thread computes ScanV2Spec |
| ProfileScan.ScanV3 | scripts/profile-symbolicate.py:385-392 | the string-table loop computes ScanV3Spec, skipping a ValueError |
| ProfileScan.ScanV3Complete | scripts/profile-symbolicate.py:385-392 | an address is yielded exactly when some "0x" string of a table parses to it |
| Registry.InsertAbove | scripts/profile-symbolicate.py:274 | inserting keeps a lower bound that all elements respect |
| Registry.InsertSorted | scripts/profile-symbolicate.py:274 | inserting into a sequence sorted by start keeps it sorted |
| Registry.InsertCounts | scripts/profile-symbolicate.py:274 | inserting adds the descriptor once and keeps every other |
| Registry.InsertStable | scripts/profile-symbolicate.py:274 | an inserted descriptor goes before the others with its start |
| Registry.SortByStartSorts | scripts/profile-symbolicate.py:274 | sorted(key=start) is ordered by start and a permutation of the descriptors |
| Registry.SortByStartStable | scripts/profile-symbolicate.py:274 | the sort is stable: descriptors with equal starts keep their order |
| Registry.UnionKeys | scripts/profile-symbolicate.py:403-408 | a key is in the union exactly when some library has it |
| Registry.UnionLastWins | scripts/profile-symbolicate.py:403-408 | a key takes its value from the last library that has it |
| Registry.Libraries.constructor | scripts/profile-symbolicate.py:272-282 | one fresh, unlocated library per descriptor, in start order, with libs_start their starts and no cached library |
| Registry.Libraries.AddressToLib | scripts/profile-symbolicate.py:294-302 | a library found contains the address |
| Registry.Libraries.AddressToLibFinds | scripts/profile-symbolicate.py:294-302 | with non-overlapping libraries the library holding the address is found, and None only when no library holds it |
| Registry.Libraries.Owners | scripts/profile-symbolicate.py:304-308 | one lookup result per address of a run |
| Registry.Libraries.OwnersHold | scripts/profile-symbolicate.py:304-308 | the cache never returns a library that does not hold the address |
| Registry.Libraries.OwnersAreSearched | scripts/profile-symbolicate.py:304-308 | with non-overlapping libraries the cache is invisible: each lookup returns what the binary search returns |
| Registry.Libraries.Lookup | scripts/profile-symbolicate.py:304-308 | the cached library when it holds the address, the search's answer otherwise; the result is cached and contains the address |
| Registry.Libraries.PendSpec | scripts/profile-symbolicate.py:398-401 | a library gains a pending key for each address it was found for; other keys and libraries are unchanged |
| Registry.Libraries.ScanProfile | scripts/profile-symbolicate.py:394-397 | the addresses read are the version 3 scan from meta.version 3 on, and the version 2 scan before |
| Registry.Libraries.RecordOne | scripts/profile-symbolicate.py:398-401 | one address is looked up, and only the library found records its key |
| Registry.Libraries.RecordAll | scripts/profile-symbolicate.py:398-401 | every scanned address is recorded in the library the cached lookup returns for it |
| Registry.Libraries.SearchUnresolvedAddresses | scripts/profile-symbolicate.py:365-401 | the scan's addresses are recorded with their libraries; a version 2 ValueError stops it after the addresses before |
| Registry.Libraries.SearchOutcome | scripts/profile-symbolicate.py:398-401 | with non-overlapping libraries each library gains a pending None for exactly the scanned addresses it holds, and nothing else |
| Registry.Libraries.ResolveLocally | scripts/profile-symbolicate.py:312-315 | the libraries are resolved in order, each keeping its keys and giving each its window's symbol; the first failure stops the rest, the failing library keeping the windows it wrote before; each placement is kept or set by Locate |
| Registry.Libraries.WriteBackAnswers | scripts/profile-symbolicate.py:359-363 | each answered frame's symbol goes to its own library and to the key the frame was made from (the corrected routing of the Finding); when no two frames share a fixed-up address this equals the source's routing through address_map; libraries that are not sent are untouched |
| Registry.Libraries.EntrySlotsOf | scripts/profile-symbolicate.py:331-334 | the inner loop gives the frames of one library's keys, stopping at the first key that does not parse |
| Registry.Libraries.EntryOf | scripts/profile-symbolicate.py:327-331 | the request reads the library's name, id, start, offset and pending keys |
| Registry.Libraries.AppendEntry | scripts/profile-symbolicate.py:325-335 | one more library extends the frames, the memory map and the positions as the specification functions do |
| Registry.Libraries.RemoteRequest | scripts/profile-symbolicate.py:319-335 | the request loop builds the frames, memory map and positions of the libraries that are not fake binaries; each frame keeps the key it was made from in place of address_map |
| Registry.Libraries.ResolveRemotely | scripts/profile-symbolicate.py:317-363 | a failed exchange changes nothing; a successful one writes each zipped answer to its frame's key (the corrected routing), which is the source's address_map routing whenever no two frames share a fixed-up address; libraries not sent keep their symbols |
| Registry.Libraries.ResolveSymbols | scripts/profile-symbolicate.py:310-363 | an "http" symbols path takes the server branch, anything else the local branch, each with its outcome as above (the server branch with the corrected routing, equal to the source's where fixed-up addresses are distinct, and with every placement unchanged) |
| Registry.Libraries.SymbolicationTable | scripts/profile-symbolicate.py:403-408 | the table is the union of every library's symbols, a later library winning |
| Remote.Answer | scripts/profile-symbolicate.py:353-359 | the symbols are the first stack of a 200 answer; another status is BadRequest, and an empty body has no first stack |
| Remote.EntrySlotsSucceed | scripts/profile-symbolicate.py:331-334 | a library's frames exist exactly when every key normalises, and otherwise fail with one key's error |
| Remote.EntrySlotsAt | scripts/profile-symbolicate.py:331-334 | frame j of a library is its key j, sent with that library's index |
| Remote.EntrySlotsAddress | scripts/profile-symbolicate.py:332-334 | frame j carries the normalised address of key j |
| Remote.EntrySlotsStop | scripts/profile-symbolicate.py:331-334 | the first key that does not normalise is the library's error |
| Remote.SlotsSucceed | scripts/profile-symbolicate.py:325-335 | the request can be built exactly when every key of every sent library normalises |
| Remote.SlotsPoint | scripts/profile-symbolicate.py:325-335 | every frame names a sent library and one of its keys |
| Remote.SlotsAddress | scripts/profile-symbolicate.py:332-334 | every frame carries its key's normalised address, by its own library's start and offset |
| Remote.SlotsCover | scripts/profile-symbolicate.py:331-334 | every pending key of every sent library has a frame |
| Remote.SlotsDistinct | scripts/profile-symbolicate.py:331-334 | two frames of one library come from two different keys |
| Remote.RequestShape | scripts/profile-symbolicate.py:337-342 | one stack holding every frame, one memory-map entry per sent library, and every frame naming a sent library's (basename, id) entry |
| Remote.ParticipantsAre | scripts/profile-symbolicate.py:326-327 | the sent libraries are exactly those whose name does not start with "[" |
| Remote.ParticipantsSnoc | scripts/profile-symbolicate.py:325-330 | one more library is sent exactly when it is not a fake binary |
| Remote.PositionsSnoc | scripts/profile-symbolicate.py:325-335 | a sent library's position in libs follows those before it |
| Remote.MemoryMapSnoc | scripts/profile-symbolicate.py:328-329 | a sent library appends (basename, id) to the memory map |
| Remote.SlotsSnoc | scripts/profile-symbolicate.py:331-335 | a sent library appends its frames, or its first bad key's error |
| Remote.PositionsShape | scripts/profile-symbolicate.py:325-330 | sent library p is entry Positions[p]; positions increase, and only sent libraries have one |
| Remote.WriteBackKeepsKeys | scripts/profile-symbolicate.py:359-363 | writing answers adds no key to a library whose frames come from its own keys |
| Remote.WriteBackOfSlot | scripts/profile-symbolicate.py:359-363 | the answer for frame k is stored under the key frame k came from |
| Remote.WriteBackElsewhere | scripts/profile-symbolicate.py:359-363 | a key no answered frame came from keeps its value |
| Remote.ResolvedRemotely | scripts/profile-symbolicate.py:359-363 | when the server answers every frame, every pending key gets its own answer and no key is added |
| Remote.AddressMap | scripts/profile-symbolicate.py:333 | every normalised address of the request is a key of address_map |
| Remote.AddressMapOfSlot | scripts/profile-symbolicate.py:331-334 | address_map sends a frame's address back to that frame's key when no later frame has the same address |
| Remote.AsWrittenAgrees | scripts/profile-symbolicate.py:331-363 | when no two frames share a fixed-up address, writing through address_map gives exactly the corrected write-back |
| Remote.AsWrittenMisroutesSharedAddress | scripts/profile-symbolicate.py:333-362 | two libraries whose keys normalise alike: as written, the first library's answer is stored under the second's key in the first library, and its own key stays None; routing by frame resolves it |
| Remote.AsWrittenMisroutesSharedOffsets | scripts/profile-symbolicate.py:332-333 | the same happens for any two addresses at the same distance from their libraries' starts with equal offsets |
| Remote.AsWrittenMisroutesOneLibrary | scripts/profile-symbolicate.py:333-362 | two keys of one library that normalise alike: as written, both answers go to the second key and the first stays None; routing by frame resolves both |
| Remote.AsWrittenMisroutesNeighbours | scripts/profile-symbolicate.py:332-333 | the same happens for neighbouring addresses x and x + 1 of one library when x - start + offset is even |
| RecoveryFstab.RecoveryFSTab.constructor | tools/update-tools/update_tools.py:838-850 | the version is what the loop over the lines leaves |
| RecoveryFstab.VersionIsZeroUnlessSet | tools/update-tools/update_tools.py:838-850 | the version is 0, 1 or 2, and 0 exactly when no line has three to five fields |
| RecoveryFstab.LastLineDecides | tools/update-tools/update_tools.py:838-850 | the last line with three to five fields decides the version |
| RecoveryFstab.LengthsSpec | tools/update-tools/update_tools.py:874-880 | the options fail exactly when a "length=" value is not an integer; otherwise the last "length=" decides, and the length is 0 without one |
| RecoveryFstab.LengthsStop | tools/update-tools/update_tools.py:876-878 | the first bad "length=" value is the outcome of the options |
| RecoveryFstab.ReadLength | tools/update-tools/update_tools.py:875-880 | the options loop computes the length and ignores unknown options |
| RecoveryFstab.LineV1 | tools/update-tools/update_tools.py:855-881 | version 1 line: skipped lines give nothing; the wrong field count is a ValueError; otherwise mount point, file system, device, second device and length come from the fields as read_v1 assigns them |
| RecoveryFstab.LineV2 | tools/update-tools/update_tools.py:887-908 | version 2 line: five fields are required; a "voldmanaged=" line is skipped; otherwise device, mount point, file system and length, with no second device |
| RecoveryFstab.CollectFails | tools/update-tools/update_tools.py:852-882 | a reader fails exactly when one of its lines does, with the error of the first such line |
| RecoveryFstab.CollectKeys | tools/update-tools/update_tools.py:881 | the dictionary's keys are the mount points of the partitions the lines yield |
| RecoveryFstab.CollectLastWins | tools/update-tools/update_tools.py:881 | a mount point holds the partition of the last line naming it |
| RecoveryFstab.CollectStop | tools/update-tools/update_tools.py:859-860 | a bad line after a good prefix is the outcome of the whole reader |
| RecoveryFstab.CollectStep | tools/update-tools/update_tools.py:881 | a good line extends the dictionary of the lines before it |
| RecoveryFstab.RecoveryFSTab.ReadV1 | tools/update-tools/update_tools.py:852-882 | read_v1's loop gives the version 1 dictionary, or the error of the first bad line |
| RecoveryFstab.RecoveryFSTab.ReadV2 | tools/update-tools/update_tools.py:884-909 | read_v2's loop gives the version 2 dictionary, or the error of the first bad line |
| RecoveryFstab.RecoveryFSTab.Read | tools/update-tools/update_tools.py:911-916 | read dispatches on the detected version, and gives None for version 0 |
| Adb.OnlineDevices | tools/update-tools/update_tools.py:247-263 | a serial is online exactly when some line other than the header is "serial<TAB>device" |
| Adb.RowShape | tools/update-tools/update_tools.py:254 | a row of whitespace-free fields splits into serial and state, and is not the header |
| Adb.ListingLines | tools/update-tools/update_tools.py:250 | the listing's lines are the header, the rows and an empty line |
| Adb.ListingOnline | tools/update-tools/update_tools.py:247-263 | for a listing of devices, exactly those in state "device" are online |
| Adb.Cmdline | tools/update-tools/update_tools.py:238-245 | a missing file is an UpdateException naming the pid; otherwise every NUL-separated piece but the last |
| Adb.CmdlineOfArguments | tools/update-tools/update_tools.py:244-245 | a command line of NUL-terminated arguments is read back as those arguments |
| Mar.EntriesAre | tools/update-tools/update_tools.py:269-277 | a name is an entry exactly when some line names it |
| Mar.ListEntries | tools/update-tools/update_tools.py:269-277 | list_entries' loop gives the third field of every line with three fields or more whose first is not "SIZE", in order |
| Mar.IsFotaMar | tools/update-tools/update_tools.py:299-301 | a MAR is FOTA exactly when some line names "update.zip" |
| Mar.IsGeckoMar | tools/update-tools/update_tools.py:296-297 | a MAR is Gecko exactly when no line names "update.zip" |
| Mar.RowEntry | tools/update-tools/update_tools.py:273-276 | a well-formed "size mode name" row names its third field |
| Mar.HeaderEntry | tools/update-tools/update_tools.py:275 | the "SIZE MODE NAME" header names no entry |
| Mar.EntriesOfRows | tools/update-tools/update_tools.py:272-276 | after a header naming nothing, rows naming their third fields give exactly those names, in order |
| Mar.ListingEntries | tools/update-tools/update_tools.py:269-277 | the listing of well-formed rows lists exactly their names, in order |
| Mar.ListingIsFota | tools/update-tools/update_tools.py:299-301 | such a listing is FOTA exactly when one of the names is "update.zip" |
| UpdateXml.UpdateXmlBuilder.constructor | tools/update-tools/update_tools.py:509-518 | each setting is the value passed or, when missing or empty, its default; the build id defaults to the timestamp |
| UpdateXml.NewUpdateXmlBuilder | tools/update-tools/update_tools.py:506-518 | UpdateException exactly when neither MAR is given; otherwise each setting is the value given or its default |

## Left out

- Printing is left out: the verbose and progress messages, and read_v1's unknown-option warning.
- `Dump`, `DumpSymbols`, `main` and argument parsing are left out. They are output and command-line handling.
- The environment and filesystem seen by `Locate`, `get_tools_prefix` and `LookupAddressesInBreakpad` are a parameter (`Resolution.Env`): environment variables, `os.path.isdir` and `os.path.exists`.
- The external programs are functions in that parameter: `find`, `addr2line`, `nm-symbolicate` and `fixSymbols`.
- `sys.path` manipulation and the import of `fix_stack_using_bpsyms` are left out.
- `sys.exit(1)` in `Locate` is a `Fatal` error result.
- JSON encoding and decoding, the HTTP headers and `urlopen` are left out. The server is a function from URL and request to status and decoded body (`Remote.Response`).
- Remote.Answer: a status other than 200 is reported as `BadRequest(status)`. In the source, `urllib2.urlopen` already raises HTTPError for 4xx and 5xx statuses, and for a 2xx status other than 200 the message built from `r.status_code`, which the urllib2 response does not have, raises AttributeError. In every case nothing is written.
- The profile arrives already decoded (`ProfileScan.Profile`). A profile without `meta.version` (a KeyError) is not modelled.
- Python 2's dictionary order is arbitrary, so `Lib.KeysOf` picks some order. The contracts hold for every order.
- `int(s, 0)` is modelled for the hexadecimal form only: "0x"/"0X" and hex digits, with surrounding whitespace allowed. The decimal, octal and binary forms, and signed hex such as "-0x10" (which Python reads as -16), are a ValueError in the model. They are never stored as keys or scanned, since every scanned string starts with "0x".
- AdbTool's `run`, `shell` and `file_exists` are left out: they run adb. Their output is the argument, and file existence is a boolean parameter.
- MarTool's `run` is left out too: its `mar -t` output is the argument. `create` and `extract` are not part of this model.
- `generate_build_id` reads the clock. Its timestamp is the `now` parameter.
- RecoveryFSTab's file reading is left out: the lines `readlines()` returns are the constructor's argument.
- `RecoveryFSTab.read` returns nothing for version 0. This is `None` in `Read`.
- The rest of `update_tools.py` is not part of this model: UpdateXmlBuilder's XML output, hashing, `BZip2Mar`, `FlashFotaBuilder`, `TestUpdate` and the other tools.
- `build-flash-fota.py` and `mach_b2g_bootstrap.py` are not part of this model.
- Concurrency and the subprocess environment are left out.
- Registry.Libraries.RemoteRequest builds no `address_map`: each frame keeps the key it was made from, which is what the corrected routing of the Finding needs. `Remote.AddressMap` models the dictionary itself.
- Registry.Libraries.WriteBackAnswers implements the corrected routing of the Finding, not line 362's `address_map[address[1]]`. It equals the source's routing only when no two frames share a fixed-up address (`Remote.AsWrittenAgrees`); where two do, it resolves the keys the source leaves pending or misplaces.
- Registry.Libraries.ResolveRemotely inherits that corrected routing from WriteBackAnswers; the source's behaviour on colliding addresses is `Remote.WriteBackAsWritten`, and the contract states it only for distinct addresses.
- Registry.Libraries.ResolveSymbols inherits the same corrected routing on its server branch.

## Findings

| source | as written | input that shows it | evidently intended | confidence | as-written member | corrected member |
|---|---|---|---|---|---|---|
| scripts/profile-symbolicate.py:333 | `address_map[adj_address] = address` is one dictionary for all libraries, keyed by the normalised offset alone, and line 362 routes every answer through it | two libraries with equal offsets, e.g. starts 0x1000 and 0x2000, with pending 0x1010 and 0x2010: both normalise to 0xf, so the first library's symbol is stored under "0x00002010" and its own key "0x00001010" stays None | each answer goes to the key its frame was made from in the library the frame names | high (proved in the model; not executed) | Remote.AsWrittenMisroutesSharedOffsets | Remote.ResolvedRemotely |
| scripts/profile-symbolicate.py:333 | the same dictionary collides inside one library | one library at 0x1000 with offset 0 and pending 0x1010 and 0x1011: both normalise to 0xf, so both answers go to whichever of the two keys comes last in dictionary order, and the other stays None (the model fixes the order to 0x1010, 0x1011) | each answer goes to the key its frame was made from | high (proved in the model; not executed) | Remote.AsWrittenMisroutesNeighbours | Remote.ResolvedRemotely |
