# Verified model of lsof

This project models the hard core of the C sources of lsof (`lib/` and `src/`)
in Dafny and proves what that code is for. Each module follows one component:

| module | component |
|---|---|
| `Common` | what the modules share |
| `FileSystem`, `PathSpeller`, `PathLengths`, `Readlink`, `LinkStack` | `Readlink()`: respelling a path by its symbolic links |
| `HelperProcess`, `HelperHistory` | `doinchild()` and `childx()`: requests to a forked helper, with alarms |
| `Crc`, `Digits`, `DevTable`, `DevCache`, `DevCacheDamage`, `DevCacheFile`, `DevLookup` | the device table, its checksummed cache file, and the search in it |
| `NameCache` | the kernel name cache: hash table, parent links, paths put together backwards |
| `Json`, `JsonPrinter`, `JsonKeys`, `JsonFields` | `-J` and `-j` output |
| `Selection`, `Gathering` | include and exclude lists, `-a`, and the early stop of a process scan |
| `FileIndex` | the hash index over file search arguments |
| `OptionScanner`, `CommandLine` | `GetOpt()` and the option loop that rewinds it |
| `DirWalk` | the `+d`/`+D` worklist |
| `Ports`, `Addresses`, `DottedQuad` | port lists, hosts and IPv4 addresses of `-i` |

Where the source changes fields, arrays or lists step by step, the model is a
class or a method with loops, proved against a function or a property of the
inputs. Where it computes a value, the model is a function with lemmas. Hash
functions are any functions into their range, file systems are finite maps or
inode graphs, and standard output is a growing string. Characters from 0x80 up
are opaque.

## Main results

* **Path speller.** For every file system and every non-empty argument, a path
  that `Readlink()` returns denotes the same file as the argument under
  component-by-component resolution (section 4.13 of the POSIX.1-2017 Base
  Definitions), and denotes nothing if the argument denotes nothing. The
  returned spelling follows no links. The number of passes is that of the
  successive spellings, at most MAXSYMLINKS + 1 from an empty link stack, cyclic
  links included, and every write stays in the buffer. The link limit refuses no
  path that resolves within what is left of it. A pass succeeds if and only if
  certain lengths fit, and every path that resolves within the limit and fits the
  buffer together with the link texts it takes is spelled.
* **Helper protocol.** Over every interleaving of parent, children, deaths and
  alarms, a reply that is used was computed for that very call by the helper
  that served it, during it, and once, also if the alarm rings after the whole
  reply has been read. Between calls there is no helper and no descriptor, or a
  helper with an empty reply pipe that waits at its loop head with an empty
  request pipe, unless it has died. `childx()` waits at most three times. The
  calls return in the order begun; one is reported as timed out if and only if
  the alarm rang in it, and as broken only if its helper died while it was
  talking to it. After an alarm the next call is served as if nothing had
  happened.
* **Device cache.** What `write_dcache()` writes, `read_dcache()` reads back,
  with the clone list reversed, if and only if the device directory is the same
  and every inode is below 2^63, every name is non-empty and free of newlines,
  every line fits its buffer, and the one device looked at by `stat()` has not
  changed. The table-driven CRC is the bitwise one, it composes over
  concatenation, and it detects every odd number of wrong bits and every damage
  within 16 consecutive bits. A text that is read ends in the checksum line of all
  that goes before, so a written file is refused after such damage, and a good one
  with any single byte changed. The binary search agrees with a scan, and the
  retry happens once.
* **Name cache.** For every hash, building never probes past the table, a lookup
  stops in it and gives the earliest entry, and path assembly ends even where
  parents form a cycle, with the longest run of ancestors that fits. If the cache
  tells the truth about the directories, the path leads to the node.
* **JSON.** Every `-J` cycle is one JSON text that a strict reader of RFC 8259
  (sections 2, 4, 5 and 7) reads back as exactly the selected processes and
  files; `-j` gives one such object a line. Whole runs in repeat mode read back
  cycle by cycle, and no object has a key twice. A reader that looks values up by
  key gets every selected value of every process, file and TCP part that is
  known, and no other.
* **Selection.** A file is listed exactly if the written rule says so. The one
  exception is -a with nothing requested.
* **File index, options, directories, ports.** `is_file_named()` agrees with a
  linear scan for every hash; the option loop yields exactly what a grammar of
  the arguments gives and ends for every argument array, under the program's own
  rewinds and every other caller that rereads a value from its beginning or from
  one of its characters; options and operands, put into arguments in any way there
  is, read back as themselves; the `+D` walk opens and records each path exactly once;
  a list of ports, from its text to the answer for a socket, selects exactly its
  union for an address and for a host of one family.

## Where the code differs from what one would expect

* A path that is too long makes `Readlink()` return without emptying its link
  stack (lib/misc.c:1057-1066). `Readlink.Speller.Spell` says exactly what stays
  on it, and that something stays if and only if a pass succeeds and a later one
  that the limit allows fails, or something was there and a pass fails.
  `LinkStack` has the file systems that do it. The stale spellings count against
  later calls: `PathSpeller.StaleCosts` says which paths they make a call refuse,
  and `LinkStack.Refuses` runs into it with a path over a single link.
* Inodes from 2^63 up are written as negative numbers and refused on reading.
  `DevCache.FileComesBack` has the exact condition, `DevCache.LargeInodeIsLost`
  one such cache.
* With -a and nothing requested nothing is listed (`Selection.Listed`,
  `Selection.AndOfNothing`). The command line refuses this combination
  (src/main.c:1230-1234); the library interface permits it.
* The count of PIDs still to be found is not restored between gathers, so a
  second gather may stop before a selected process
  (`Gathering.SecondGatherMisses`). `Gathering.SecondGather` says when it cannot:
  if and only if the first gather met no more listed PIDs than there are excluded
  entries on the list, or all of them and there are no excluded entries.
* The (device, inode) bucket count 4094 is described as a power of two and is
  not. The mask still stays in range but reaches only half of the buckets
  (`FileIndex.Slot`).
* An option character 0xff reads as EOF where `char` is signed, and ends the
  option loop early. `OptionScanner.EofCutsArgs` compares with the grammar that
  does not stop there: the options are cut at the first such character, and both
  readings agree if and only if no option character reads as EOF.
  `OptionScanner.EofLosesOptions` has an argument of which every option is lost
  and which turns up as an operand.
* For a host name with IPv6 addresses, the lookup of its IPv4 addresses after the
  first port range replaces the IPv6 ones (src/arg.c:1593-1597), so later ranges
  are searched for on IPv4 only; if that lookup fails, later ranges select IPv4
  sockets whose address begins like the IPv6 address.
  `Addresses.DualIsMeantWhen` says exactly when a list still selects what was
  meant, and `Addresses.SecondPortIsLost` has a host and two ports where it does
  not.
* A range whose upper end is missing is taken as ending at port 0 at the end of
  the text, so it is accepted there exactly after 0, and refused before a comma
  (`Ports.MissingUpper`).

## Model

| member | source | states |
|---|---|---|
| `FileSystem.WalkAppend` | lib/misc.c:1054-1135 | resolution of a concatenation is resolution of the first part continued by the second, with the links that are left |
| `FileSystem.WalkShift` | lib/misc.c:1054-1135 | a walk that succeeds within a link budget succeeds with every budget that covers the links it follows, and leads to the same file |
| `FileSystem.DenLink` | lib/misc.c:1072-1087 | a component that is a link means its text, from the root or from the link's directory, at the cost of one link more |
| `PathSpeller.ExtendKeeps` | lib/misc.c:1057-1134 | adding an absolute link, a relative link or a plain component keeps the invariant that the assembly resolves as the argument read so far, one link sooner for a link |
| `PathSpeller.PassKeepsMeaning` | lib/misc.c:1054-1135 | a whole pass gives a non-empty path that denotes what the argument denotes, or nothing if that denotes nothing, and saves every link it met |
| `PathSpeller.NoLinksCopies` | lib/misc.c:1136-1149 | a pass that meets no link reproduces its argument, so the fixed point test ends the respelling |
| `PathSpeller.NoLinksFollowsNone` | lib/misc.c:1136-1149 | a path no prefix of which is a link resolves without following any |
| `PathSpeller.ChangeSheds` | lib/misc.c:1150-1200 | a pass that changes a path that denotes something leaves strictly fewer links to follow |
| `PathSpeller.SpellKeepsMeaning` | lib/misc.c:1023-1201 | whatever the file system, a returned path denotes the same file as the argument and follows no link, and denotes nothing exactly if the argument does not |
| `PathSpeller.SpellSucceeds` | lib/misc.c:1162-1186 | a path that resolves within the links still allowed is never refused for too many links |
| `PathSpeller.TooLongWhen` | lib/misc.c:1057-1066 | a call finds its path too long exactly if one of the successive spellings it may still make fails |
| `PathSpeller.Stacked` | lib/misc.c:1150-1200 | what a call stacks are its successive spellings, in order, and never more than the limit leaves room for |
| `PathSpeller.StaleCosts` | lib/misc.c:1162-1186 | with spellings left over from other calls, a path is refused exactly if they and its own respellings together exceed the limit |
| `PathLengths.PassFits` | lib/misc.c:1101-1134 | a pass succeeds if and only if, over lengths and last characters alone, every prefix and every assembly on the way stays below MAXPATHLEN |
| `PathLengths.PassSucceeds` | lib/misc.c:1101-1134 | a path that leaves room for the texts of the links it names, with a slash each, survives a pass, and the result is no longer than that |
| `PathLengths.MetAreTaken` | lib/misc.c:1072-1087 | a pass meets no more links than resolving the path takes |
| `PathLengths.SpelledWhen` | lib/misc.c:1023-1201 | every path that resolves with the links still allowed, and fits the buffer together with the texts of all the links it takes, is spelled |
| `Readlink.CopyAt` | lib/misc.c:1128-1133 | a copy leaves what is before it and ends with the terminator, in bounds |
| `Readlink.Speller.AddPiece` | lib/misc.c:1101-1134 | the buffer after a piece is the assembly the specification gives, or the path was too long, exactly if it does not fit; position and terminator stay inside |
| `Readlink.Speller.Turn` | lib/misc.c:1057-1134 | one component in the buffer does what `Extend` specifies |
| `Readlink.Speller.Pass` | lib/misc.c:1054-1135 | the buffer after a pass holds exactly the assembly, and every index stays inside MAXPATHLEN + 1 |
| `Readlink.Speller.Respell` | lib/misc.c:1023-1201 | the recursion makes exactly the passes of the successive spellings, with the specified outcome and stack |
| `Readlink.Speller.Spell` | lib/misc.c:1023-1201 | outcome, number of passes and stack afterwards; the stack is left non-empty if and only if it was, or the first pass succeeds, and one of the passes the limit allows fails |
| `LinkStack.FirstPass` | lib/misc.c:1072-1134 | on these file systems the first pass puts a long link text in place of the argument |
| `LinkStack.SecondPass` | lib/misc.c:1122-1126 | the second pass copies that text up to another link, whose text no longer fits |
| `LinkStack.OneLeft` | lib/misc.c:1057-1066 | each such call fails and leaves one spelling on the stack |
| `LinkStack.Refuses` | lib/misc.c:1162-1186 | after MAXSYMLINKS such calls a path over one link, which was spelled before them, is refused for too many links |
| `HelperProcess.InvSend` | lib/misc.c:416-422 | a write of the request keeps the protocol invariant |
| `HelperProcess.InvReceive` | lib/misc.c:423-425 | the next token of a reply is always the expected one and keeps the invariant |
| `HelperProcess.InvComplete` | lib/misc.c:442-448 | returning once the reply is read, the alarm having been able to ring until then, records a genuine reply |
| `HelperProcess.InvChild` | lib/misc.c:374-396 | every read and write of any child, abandoned ones included, keeps the invariant |
| `HelperProcess.RefusesLength` | lib/misc.c:374-384 | a child goes on after a length exactly if its buffers hold it |
| `HelperProcess.InvPerform` | lib/misc.c:385-387 | performing the function in any child keeps the invariant and every earlier reply genuine |
| `HelperProcess.InvClose` | lib/misc.c:119-191 | giving a child up at any point, closing all four descriptors, keeps the invariant |
| `HelperProcess.InvNext` | lib/misc.c:256-449 | every possible step of parent, children, alarm, wait and death keeps the invariant |
| `HelperProcess.EveryRun` | lib/misc.c:256-449 | after every run: all replies were computed for their own call by the helper that served it, once and during it; between calls the helper is absent with all descriptors closed, or waits with empty pipes; at most three waits; neither side misreads a pipe |
| `HelperProcess.UndisturbedCall` | lib/misc.c:279-449 | from every state between calls, a call that nothing disturbs returns what its function returned and leaves the helper waiting |
| `HelperHistory.EveryReply` | lib/misc.c:279-448 | after every run: the calls returned are those begun, in order, but for one in progress; a call is reported as timed out if and only if the alarm rang in it, and as broken only if, while it was talking to its helper, that was dead |
| `HelperHistory.LostNow` | lib/misc.c:416-431 | the report of a broken helper comes from a moment at which it is dead |
| `HelperHistory.Recovers` | lib/misc.c:281-289 | wherever the alarm catches a call, and even if the helper ignores every signal, the call ends as timed out and the next one returns what its own function returned, through a new helper |
| `Crc.Build` | lib/dvch.c:229-245 | the table built by the loop holds, at every index, eight bitwise steps of that index |
| `Crc.TableStep` | lib/dvch.c:207-222 | eight bitwise steps of any register are its upper bits mixed with the steps of its low byte |
| `Crc.Block` | lib/dvch.c:207-222 | the table-driven loop computes the bitwise CRC-16 with polynomial 0xA001 of every non-empty block |
| `Crc.SumAppend` | lib/dvch.c:207-222 | the running sum of a concatenation is the sum of the second part started with that of the first |
| `Crc.SumInjective` | lib/dvch.c:207-222 | the same text keeps different registers different |
| `Crc.AdjacentDamage` | lib/dvch.c:207-222 | two texts that differ only within two adjacent bytes have different sums |
| `Crc.SumParity` | lib/dvch.c:207-222 | the parity of the sum is the parity of the register and the text together |
| `Crc.OddDamage` | lib/dvch.c:207-222 | any odd number of wrong bits, anywhere in the text, changes the sum |
| `Crc.SumLinear` | lib/dvch.c:207-222 | the difference of two sums is the sum of the difference of the texts |
| `Crc.BurstDamage` | lib/dvch.c:207-222 | any damage within 16 consecutive bits, also across three bytes, changes the sum |
| `Digits.RoundTrip` | lib/dvch.c:1254-1260 | a number printed in base 10 or 16 and read by a digit loop is itself, also modulo 2^64 when it fits |
| `DevTable.Table.RemoveDuplicates` | lib/rdev.c:415-463 | compacting in place leaves exactly the first pointer of every run and unlinks exactly the clones of the others |
| `DevTable.Table.Unlink` | lib/rdev.c:440-449 | the list walk removes exactly the clone of that device |
| `DevTable.DevLeIsOrder` | lib/misc.c:197-210 | the comparison is a total order on devices: total, transitive and antisymmetric |
| `DevTable.KeptIsStrict` | lib/rdev.c:374-379 | after sorting, what is kept is strictly increasing by device and inode, has one entry for every distinct pair, and that is the least in the sort order |
| `DevTable.ClonesPointIn` | lib/dvch.c:1178-1193 | every clone that remains points to an entry that is kept |
| `DevLookup.GiveUpSide` | lib/lkud.c:154-183 | in a strictly sorted table a match lies on the side the comparison with the middle chooses, whichever of the two ways of matching is in force |
| `DevLookup.Devices.Search` | lib/lkud.c:154-183 | the binary search finds an entry exactly if a scan of the table does |
| `DevLookup.Devices.Verify` | lib/rdev.c:472-486 | yes exactly if the cache is safe, the entry was verified before or stat confirms it; otherwise the whole table has been reread |
| `DevLookup.FreshIsComplete` | lib/rdev.c:374-379 | a table read anew is strictly sorted and has every device found, under its least name |
| `DevLookup.Devices.Reread` | lib/rdev.c:399-408 | the table is that of the devices now found, sorted and without duplicates, and it is safe |
| `DevLookup.Devices.Lookup` | lib/lkud.c:127-192 | one search, and one more for a reread, which happens at most once; an entry exactly if the table then in force has a match; one returned while the cache is unsafe has been confirmed |
| `DevCache.RowLine` | lib/dvch.c:858-918 | a device line is one line and parses back to its device exactly if the device is storable |
| `DevCache.RowsComeBack` | lib/dvch.c:858-918 | storable devices come back in the same order, with the running checksum of their text |
| `DevCache.RowsMustBeGood` | lib/dvch.c:858-918 | rows that come back unchanged were all storable |
| `DevCache.ClonesComeBack` | lib/dvch.c:1118-1163 | clone indexes come back reversed exactly if their lines fit |
| `DevCache.CloneNamed` | lib/dvch.c:1118-1163 | a clone line is accepted exactly if there is a device of its number whose name begins with its name |
| `DevCache.HeaderLine` | lib/dvch.c:833-855 | a section header is one line for the reader |
| `DevCache.HeaderParses` | lib/dvch.c:833-855 | a section header gives its count back |
| `DevCache.CountLineInjective` | lib/dvch.c:797-825 | the first line tells device directories apart |
| `DevCache.CloneSectionBack` | lib/dvch.c:990-1050 | the clone section and the checksum line are accepted exactly if the clone lines fit |
| `DevCache.BlocksBack` | lib/dvch.c:924-1050 | the block section and what follows come back exactly if its devices are storable and the clone lines fit |
| `DevCache.DevicesBack` | lib/dvch.c:833-1050 | all sections come back exactly if the whole cache is storable |
| `DevCache.FileComesBack` | lib/dvch.c:725-1050 | the written file is read back as the same tables with the clones reversed if and only if the device directory is the same and the cache is storable |
| `DevCache.LargeInodeIsLost` | lib/dvch.c:1254-1260 | a cache of one device with the inode 2^63 is not read back |
| `DevCacheDamage.AcceptedIsSealed` | lib/dvch.c:1034-1050 | every text that is read begins with the section count for this device directory and is some body followed by the checksum line of that body |
| `DevCacheDamage.OneSeal` | lib/dvch.c:1034-1042 | the checksum line is where its title stands, even if one character of that is damaged |
| `DevCacheDamage.ChangedBody` | lib/dvch.c:1034-1042 | a sealed text whose body is changed to one with another sum is refused |
| `DevCacheDamage.ChangedLine` | lib/dvch.c:1034-1042 | a sealed text whose checksum line is changed, in any way that leaves all or all but one character of its title, is refused |
| `DevCacheDamage.OddDamageIsRefused` | lib/dvch.c:725-1050 | a written file with an odd number of wrong bits before its checksum line is not read |
| `DevCacheDamage.BurstIsRefused` | lib/dvch.c:725-1050 | a written file whose wrong bits before its checksum line lie within 16 consecutive ones is not read |
| `DevCacheDamage.OneWrongByte` | lib/dvch.c:725-1050 | a file that is read is not read any more after a change of any one byte, wherever it is |
| `DevCacheFile.Writer.Put` | lib/dvch.c:1325-1348 | a write appends the text and keeps the checksum that of all text written |
| `DevCacheFile.Writer.PutRows` | lib/dvch.c:1254-1260 | a table's lines are appended and summed in order |
| `DevCacheFile.Writer.PutClones` | lib/dvch.c:1178-1199 | it fails exactly if some clone points outside the table; otherwise each line has the position of its clone's device |
| `DevCacheFile.Writer.Write` | lib/dvch.c:1214-1319 | what is written is the text of the cache with its checksum line, or some clone points outside the table |
| `DevCacheFile.Reader.GetRows` | lib/dvch.c:858-918 | the row loop accepts and delivers exactly what the line-by-line parser does |
| `DevCacheFile.Reader.GetClones` | lib/dvch.c:1118-1163 | the clone loop, which prepends, accepts and delivers exactly what the parser does |
| `DevCacheFile.Reader.Get` | lib/dvch.c:725-1050 | the reader with its running checksum computes `Read`, for every text |
| `DevCacheFile.Reader.Load` | lib/dvch.c:725-1078 | the same with the closing look at one device |
| `DevCacheFile.FileLoads` | lib/dvch.c:1052-1070 | a written file is loaded again if and only if the device directory is the same, the cache is storable and the device looked at is unchanged |
| `DevCacheFile.GetNumber` | lib/misc.c:1566-1622 | the hexadecimal scanner accepts, stops and computes as its grammar says, for every text |
| `DevCacheFile.GetDevice` | lib/dvch.c:870-917 | the in-place scanner of one device line computes its grammar, for every line |
| `DevCacheFile.FindPointer` | lib/dvch.c:1178-1186 | the position loop finds the pointer, or passes the end exactly if it is not there |
| `DevCacheFile.ScanToCache` | lib/dvch.c:1085-1193 | after sorting and removing duplicates the writer's index branch for a missing device is unreachable, and the table read back is strictly sorted as it was |
| `NameCache.Place` | lib/rnch.c:640-663 | putting an entry in the first empty slot from its home keeps every chain unbroken and the table in bounds |
| `NameCache.Drop` | lib/rnch.c:649-660 | leaving out a duplicate keeps the earlier entry findable |
| `NameCache.FirstSlot` | lib/rnch.c:183-208 | the first slot of a chain that is empty or has the key decides: the earliest entry, or none |
| `NameCache.LastEmpty` | lib/rnch.c:629-663 | the last slot of a filled table is empty |
| `NameCache.Cache.Insert` | lib/rnch.c:640-663 | probing ends inside the table, which then indexes one entry more |
| `NameCache.Cache.Load` | lib/rnch.c:629-684 | for every hash, every entry is indexed and every parent link is the earliest entry of the parent |
| `NameCache.Cache.Address` | lib/rnch.c:183-208 | the probe returns the earliest entry with the key, and none exactly if there is none |
| `NameCache.Cache.LinkParents` | lib/rnch.c:668-684 | every parent link is the lookup of the parent's key |
| `NameCache.PathUpGrows` | lib/rnch.c:744-772 | each ancestor makes the path longer, so a walk up a cycle uses up the buffer |
| `NameCache.PathLeadsThere` | lib/rnch.c:744-772 | if the entries are true of the directories, the path put together leads, from the directory above its first name, to the node asked for |
| `NameCache.LongestIsUnique` | lib/rnch.c:744-772 | there is just one longest run of ancestors that fits |
| `NameCache.Prepend` | lib/rnch.c:765-770 | a name and a slash go before what is in the buffer, which stays as it was |
| `NameCache.Cache.Climb` | lib/rnch.c:744-772 | the buffer ends with the joined names of the node and the longest run of ancestors that fits, even on a cycle |
| `NameCache.FindMount` | lib/rnch.c:725-740 | a node without an entry is a mount point exactly if a known mount has its device, inode and directory |
| `NameCache.Cache.Lookup` | lib/rnch.c:691-773 | the whole lookup: the empty reply exactly for mount points, nothing exactly if the node is otherwise unknown or its name does not fit, else that path, and whether it is complete |
| `Json.StringBack` | src/print.c:112-147 | every string, escaped and quoted, is decoded to itself by a strict reader |
| `Json.CharEscapeBack` | src/print.c:167-179 | a single ASCII character, in the numeric form or plain, decodes to itself |
| `Json.ValueBack` | src/print.c:149-199 | every JSON value printed is read back as itself, with what follows left over |
| `Json.MembersBack` | src/print.c:151-158 | members with their separators are read back in order |
| `Json.ItemsBack` | src/print.c:2147-2163 | array items with their separators are read back in order |
| `JsonPrinter.Stdout.PutEscaped` | src/print.c:112-147 | the character loop writes the escape of the string |
| `JsonPrinter.Stdout.PutStr` | src/print.c:160-165 | one string member, with the comma its separator flag asks for |
| `JsonPrinter.Stdout.PutNum` | src/print.c:181-199 | one number member likewise |
| `JsonPrinter.Stdout.PutChar` | src/print.c:167-179 | one character member for any character, the same text as a one-character string where it is printable |
| `JsonPrinter.Stdout.PutTcp` | src/print.c:1995-2043 | the nested object is one member, whatever of it is selected |
| `JsonPrinter.Stdout.PutFileFields` | src/print.c:1911-2044 | what is written is exactly the file's selected members, and the flag tells whether a member has been written |
| `JsonPrinter.Stdout.PutProcFields` | src/print.c:2049-2092 | what is written is exactly the process's selected members, with the flag |
| `JsonPrinter.Stdout.PutFiles` | src/print.c:2152-2163 | exactly the selected files, in order, separated by commas |
| `JsonPrinter.Stdout.PutProc` | src/print.c:2130-2164 | a process object exactly if it has a selected file, and the first-process flag falls then |
| `JsonPrinter.Stdout.Cycle` | src/main.c:1368-1371 | a cycle adds the document of the processes shown and a newline, for every selection and table and after whatever was written before |
| `JsonPrinter.CycleParses` | src/print.c:1898-1906 | a strict reader reads that text as the same document and leaves the newline and what follows |
| `JsonPrinter.Stdout.PutLines` | src/print.c:2164-2176 | one line for each selected file, none for others |
| `JsonPrinter.Stdout.LineCycle` | src/main.c:1514-1530 | a `-j` cycle adds those lines for all processes in order, and in repeat mode an empty line |
| `JsonPrinter.LineCycleParses` | src/print.c:2164-2176 | each line is one JSON object: the process's members followed by the file's |
| `JsonKeys.ObjectsHaveDistinctKeys` | src/print.c:1911-2092 | whatever is selected, no object has a key twice: a process with its files, a file, its TCP part, and a `-j` line with process and file members together |
| `JsonPrinter.SpacesSkipped` | src/print.c:1943-1948 | what is left of a text are its characters from the first that is no space on |
| `JsonFields.AccessReads` | lib/print.c:41-53 | the access letters are those of the manual page |
| `JsonFields.LockReads` | lib/print.c:58-82 | the lock letters are those of the manual page |
| `JsonFields.TcpReads` | src/print.c:1995-2043 | a reader of the TCP part finds under each key its value, if that is known and selected, and nothing else |
| `JsonFields.FileReads` | src/print.c:1911-2044 | a reader of a file's object finds under each of its keys the value of that field, if that is known and selected, and nothing otherwise |
| `JsonFields.ProcReads` | src/print.c:2049-2092 | the same for every key of a process |
| `JsonFields.LineReads` | src/print.c:2164-2176 | the same for the process and the file of a `-j` line |
| `JsonFields.CycleReads` | src/print.c:1898-1906 | from the text of a `-J` cycle a reader gets the version and, for each process shown and each of its selected files in order, just the values known and selected |
| `JsonFields.LineCycleReads` | src/print.c:2164-2176 | from the text of a `-j` cycle the same, a process and a file a line |
| `JsonFields.SelectedExactly` | src/print.c:2152-2163 | the files shown are the selected ones, each as often as it is listed |
| `JsonFields.ShownExactly` | src/print.c:2130-2146 | the processes shown are the selected ones with a selected file, each as often as it is listed |
| `JsonPrinter.JsonRunParses` | src/main.c:1368-1371 | every run of `-J` cycles reads back as the documents of the cycles, one a line |
| `JsonPrinter.LinesRunParses` | src/main.c:1514-1530 | every run of `-j` cycles in repeat mode reads back as the objects of each cycle, cycle by cycle |
| `Selection.Scan` | lib/proc.c:626-633 | the scan that stops once it has seen the counted entries finds what a full scan finds |
| `Selection.IsProcExcl` | lib/proc.c:593-798 | not excluded: the flags are exactly the ID selectors that match; excluded: a list excludes the process or no file of it could be listed |
| `Selection.IsCmdExcl` | lib/proc.c:509-560 | excluded exactly by an exclusion prefix or by a missed command selection that is alone or ANDed; otherwise the command flag is set exactly on a match |
| `Selection.CkFdStatus` | lib/proc.c:307-346 | the answer for a descriptor, inclusive or exclusive list, as membership in the ranges |
| `Selection.FileFlags` | lib/proc.c:86-225 | a file inherits its process's flags exactly if that was selected, plus the descriptor match and the dialect's flags |
| `Selection.OnlyRequested` | lib/proc.c:593-798 | only requested selectors match, and a process dropped early has no file the rule would list |
| `Selection.Listed` | lib/proc.c:566-587 | from the process tests to the file test: listed exactly by the written rule, except -a with nothing requested |
| `Selection.AndOfNothing` | lsof-rs/README.md:167-175 | an input where the rule lists a file and -a with nothing requested does not |
| `Gathering.AddId` | lib/lsof.c:1067-1120 | an ID already there stays, one there the other way is refused, a new one is appended; the counts stay exact |
| `Gathering.Context.SelectPid` | lib/lsof.c:1122-1130 | the list invariants and the requested flag are kept; refused exactly after freezing or on a conflict |
| `Gathering.Context.SelectPgid` | lib/lsof.c:1132-1136 | the same for process groups |
| `Gathering.Context.SelectUid` | lib/lsof.c:1139-1203 | the same for users |
| `Gathering.Context.SelectCommand` | lib/lsof.c:143-215 | the same for commands, which are prepended |
| `Gathering.Context.SelectRegex` | lib/lsof.c:891-1064 | an expression that compiles is appended and requests commands; refused exactly after freezing or if it does not compile |
| `Gathering.Context.SelectFd` | src/arg.c:701-838 | a descriptor range is prepended unless it is there; refused exactly if it would mix inclusion and exclusion; afterwards a descriptor is covered exactly if it was before or the range covers it |
| `Gathering.Context.Freeze` | lib/lsof.c:230-248 | whatever IDs, commands, expressions and descriptors were entered, the engine starts with valid lists; a second freezing is refused and changes nothing |
| `Gathering.EnoughIsSafe` | lib/proc.c:430-461 | a gather that starts with a count of at least the included PIDs stops only after every one has been met |
| `Gathering.SafeExactlyWhen` | lib/proc.c:430-461 | over all distinct PID sequences a gather misses nothing if and only if its count has run out or is at least the number of included PIDs |
| `Gathering.LeftIs` | lib/proc.c:705-721 | a gather takes off its count the number of listed PIDs it met |
| `Gathering.FirstGather` | lib/lsof.c:1122-1130 | with the count that selecting PIDs leaves, the first gather misses nothing |
| `Gathering.SecondGather` | lib/proc.c:430-461 | a second gather misses nothing, whatever it is presented, if and only if the first met no more listed PIDs than there are excluded entries, or all of them and there are none |
| `Gathering.SecondGatherPlain` | lib/proc.c:430-461 | without exclusions: if and only if the first met none of the list or all of it |
| `Gathering.SecondGatherMisses` | lib/proc.c:705-721 | two gathers in a row of which the second misses a selected process |
| `FileIndex.Slot` | lib/isfn.c:77-105 | the mask of every bucket count stays in range, 4094 included, which leaves half its buckets unused |
| `FileIndex.MaskedIsInRange` | lib/isfn.c:77-105 | every hash that ends with the mask is one the index is proved for |
| `FileIndex.Enter` | lib/isfn.c:172-230 | entering an argument for a stage keeps the chains and makes it findable there |
| `FileIndex.SearchList.HashAll` | lib/isfn.c:110-231 | for every hash, afterwards all stages index all search arguments; a second call changes nothing |
| `FileIndex.Find` | lib/isfn.c:252-259 | walking one bucket finds an entry with the key, or there is none on the whole list |
| `FileIndex.StagesAreMatches` | lib/isfn.c:252-321 | key equality in a stage is the match that stage stands for |
| `FileIndex.RawAddsNothing` | lib/isfn.c:308-321 | whatever the raw-device stage could match, an earlier stage matches |
| `FileIndex.SearchList.Search` | lib/isfn.c:252-304 | the entry found matches in the first stage that matches anything |
| `FileIndex.SearchList.IsNamed` | lib/isfn.c:237-353 | yes exactly if a linear scan finds an argument naming the file; the one entry marked is such an argument, found by the first stage that matches |
| `OptionScanner.Next` | src/main.c:1990-1993 | the place after an option character is further on and is a character or the next argument |
| `OptionScanner.FromStop` | src/main.c:1924-1947 | a character that reads as EOF ends the options there |
| `OptionScanner.FromValueHere` | src/main.c:1967-1970 | a value in the same argument, kept or reread from any offset, is what the grammar says |
| `OptionScanner.FromValueNext` | src/main.c:1971-1981 | the same for a value in the next argument, or none |
| `OptionScanner.Scanner.TakeValue` | src/main.c:1967-1982 | the remembered place of the value is past the start, and every rereading goes on at a real character |
| `OptionScanner.Scanner.GetOpt` | src/main.c:1888-2000 | each call moves strictly forward and returns exactly the next option of the grammar; a non-zero second index is always a character |
| `OptionScanner.Scanner.Turn` | src/main.c:403-409 | a turn with any caller's rewind still moves strictly forward and takes one option off what is left |
| `OptionScanner.Scanner.Run` | src/main.c:289-1030 | for every argument array, rules and caller the loop ends with exactly the grammar's options and the operands after them |
| `OptionScanner.WaysAreSound` | src/main.c:651-671 | keeping a value, rewinding to one that looks like an option or is no number, the empty value included, and rewinding past leading digits never leave the value |
| `OptionScanner.Program` | src/main.c:289-1030 | in every build the program's own option loop ends for every argument array with exactly the grammar's options and operands |
| `OptionScanner.EofCutsArgs` | src/main.c:1924-1947 | against the grammar without the stop, the options are cut at the first option character that reads as EOF; the readings agree if and only if there is none, and certainly if no character of the arguments reads so |
| `OptionScanner.EofLosesOptions` | src/main.c:1924-1947 | an argument of which all options are lost and which is taken for an operand |
| `CommandLine.RulesSay` | src/main.c:1924-1948 | in the rules written for an option table, a character is found as the table lists it: with a value, alone, or not at all |
| `CommandLine.FlagsRead` | src/main.c:1983-1998 | option characters without a value are read one by one, with the error mark of a colon or of an unknown one |
| `CommandLine.LastReads` | src/main.c:1948-1982 | an option that may have a value gets what follows it in the argument or the next argument, and none at the end or before `--`; an argument it does not take is read anew |
| `CommandLine.LineReads` | src/main.c:1888-2000 | for every option table and caller: options and operands put into arguments, values joined or separate, declined or missing, read back as exactly those options and operands |
| `CommandLine.ProgramDecides` | src/main.c:585-591 | which values each option of the program takes, and which arguments it leaves to be read as options |
| `CommandLine.ProgramReads` | src/main.c:289-1030 | the same for the program's own loop in every build: after each option whose value is optional, an argument that begins with `-` or `+` is read as options |
| `CommandLine.NumberThenOptions` | src/main.c:641-671 | after -L, -o and -S what follows the digits is to be read as options |
| `CommandLine.NumberHere` | src/main.c:651-671 | and is: the options directly after the digits in the same argument |
| `CommandLine.NumberNext` | src/main.c:651-671 | and in the next argument |
| `CommandLine.RepeatValue` | src/main.c:766-805 | after -r what follows the digits belongs to it exactly if it is spaces, a count and the marker |
| `DirWalk.JoinMeans` | src/arg.c:943-1008 | the path put together for an entry denotes what the entry's name denotes in the directory |
| `DirWalk.JoinIsUnique` | src/arg.c:943-1008 | paths of entries below the start tell directory and name apart |
| `DirWalk.PathsAreChildren` | src/arg.c:968-1081 | reading a directory gives exactly its entries that are to be recorded, or entered |
| `DirWalk.PathsAreDistinct` | src/arg.c:968-1081 | each of them once |
| `DirWalk.ChildIsNew` | src/arg.c:1067-1072 | what an opened directory stacks was never stacked before |
| `DirWalk.InvOpened` | src/arg.c:922-1086 | opening and reading a directory keeps the walk's invariant, and it was not opened before |
| `DirWalk.InvStep` | src/arg.c:922-1086 | a turn keeps the invariant and leaves fewer unread directories or a shorter stack |
| `DirWalk.Finished` | src/arg.c:922-1086 | with an empty stack everything reachable was opened once and recorded once |
| `DirWalk.Walker.TakeEntry` | src/arg.c:968-1081 | the tests of one entry stack and record its path exactly if it is proper, can be examined, is on the start's device or -x f, and is no link or is followed by -x l |
| `DirWalk.Walker.ReadDirectory` | src/arg.c:968-1081 | the entry loop stacks and records exactly those paths, in order |
| `DirWalk.Walker.Walk` | src/arg.c:909-1087 | the walk ends, opens exactly the reachable directories that open, each once, and records exactly the start and their entries, each once |
| `DirWalk.PlainWalk` | src/arg.c:1028-1062 | without -x, recorded is what is on the start's device and no link, and entered are the directories among that |
| `DirWalk.EnterDir` | src/arg.c:845-1087 | accepted exactly if there is an argument that does not look like an option and `Readlink()` makes of it a path that stat() finds to be a directory; otherwise the walk from that spelling, which denotes what the argument denotes, on its device |
| `Ports.ReadElement` | src/arg.c:1475-1574 | reading an element accepts and delivers what its grammar gives, for every text and service table |
| `Ports.ReadUpper` | src/arg.c:1475-1574 | the part after the dash likewise |
| `Ports.ServiceIs` | src/arg.c:1494-1535 | a service name stands for a port exactly if a table asked has it there and none that is asked has it elsewhere |
| `Ports.NamedPort` | src/arg.c:1475-1574 | a service name is a port, or the upper end of an ascending range |
| `Ports.MissingUpper` | src/arg.c:1461-1578 | a range without an upper end is accepted exactly at the end of the text and after 0 |
| `Ports.RangeBack` | src/arg.c:1475-1574 | a printed port or ascending range is read back as itself |
| `Ports.ListBack` | src/arg.c:1461-1604 | a printed list of them is read back as itself |
| `Addresses.AddressList.Enter` | src/arg.c:1645-1727 | the address and its host's further ones are prepended in turn, up to one that says nothing or finds MAXNWAD there; success exactly if all were |
| `Addresses.CompleteMeans` | src/arg.c:1647-1670 | for either family, an entry is refused as saying nothing exactly if it would mean every socket of the family |
| `Addresses.AddressList.EnterAll` | src/arg.c:1582-1601 | one range for all addresses of the target and those of the second lookup, which is left in place of the target |
| `Addresses.SecondIs` | src/arg.c:1593-1601 | after the second lookup the entries are exactly for the IPv4 addresses found, padded with zeros |
| `Addresses.AddressList.EnterPorts` | src/arg.c:1461-1604 | success exactly if all elements are good and there is room for all entries; before a failure the list has the entries made so far, last first; without a list the target is entered for all ports |
| `Addresses.AddressList.Hit` | lib/misc.c:856-896 | the tests of one entry: protocol, family, address and port agree |
| `Addresses.AddressList.IsSelected` | lib/misc.c:846-901 | yes exactly if some entry matches, and the first such entry is marked |
| `Addresses.ChainSelects` | lib/misc.c:846-901 | entries put before a list add exactly the sockets that match one of them |
| `Addresses.EntriesSelect` | src/arg.c:1461-1604 | the entries for a list of ranges select a socket exactly if some range covers its port and what that range was entered for agrees |
| `Addresses.PlainIsMeant` | src/arg.c:1461-1604 | without a second lookup that is the union of the ranges for every address of the target |
| `Addresses.DualIsMeantWhen` | src/arg.c:1593-1597 | with a second lookup it is what was meant if and only if the host has IPv4 addresses and the first range has all ports, or it has none and there is one range |
| `Addresses.SixIsLost` | src/arg.c:1593-1597 | an IPv6 socket of the host at a port of a later range only is not selected |
| `Addresses.FourIsInvented` | src/arg.c:1593-1597 | a host without IPv4 addresses: a later range selects an IPv4 socket that is none of the host's |
| `Addresses.SecondPortIsLost` | src/arg.c:1593-1597 | the loss for a host with one address of each family and the ports 80 and 443 |
| `Addresses.Asks` | src/arg.c:1461-1604 | from the printed text of a list to the answer for a socket: yes exactly as the ranges say, and without a second lookup exactly for the union |
| `DottedQuad.GroupsGrow` | src/arg.c:2096-2126 | reading on never changes a finished octet |
| `DottedQuad.Take` | src/arg.c:2096-2126 | one character keeps the octets read so far, or shows that no continuation is an address |
| `DottedQuad.IsIPv4` | src/arg.c:2075-2141 | an address exactly if the text up to a colon is four octets between dots; then their values and the place after them |
| `DottedQuad.QuadBack` | src/print.c:506-508 | four octets printed are recognised as the same four octets, alone or before a colon |

## Left out

- Platform constants: MAXSYMLINKS is any positive limit; MAXPATHLEN is 4096.
- Dialect code: gathering of processes and files, kernel reads, mount tables. The model takes what it delivers as input, and asks only that a file gets a selector's flag when that selector was requested.
- The `-b` and `-O` modes, real signals and `setjmp()`: an alarm is one step of the protocol.
- A `readlink()` that times out is passed on as length 1; the speller's results are for calls that are answered, as is the empty argument of `Readlink()`. Link texts are non-empty, free of NUL and no longer than MAXPATHLEN.
- malloc failures, file modes and ownership.
- Partial writes in `wr2DCfd()`, NUL bytes in cache text, and integer overflow of `atoi()`, of PIDs, of port numbers and of octets.
- Cache files with other sections than devices, blocks and clones; pseudo devices.
- `qsort()`: any sorted order of the pointers is accepted.
- `lkupbdev()`: it is the same search over the block table.
- Capability IDs and negative entries in name caches. lib/rnmh.c and lib/rnam.c differ in what counts as a duplicate, which is a parameter of `NameCache.Cache`.
- The tables of TCP states, user names and type names: JSON output takes them as given strings. Endpoint options and security labels.
- Found marks of ID and command lists, `HASSECURITY`, regular expression compilation, and the text parsing of `-p`, `-g`, `-u` and `-d`.
- `link_lfile()` and the two-pass filling of results in `lsof_gather()`: they only copy.
- The name that `is_file_named()` leaves for printing, and the Linux, Solaris and AIX copies of the index.
- What the options do: of each, only what it makes of its value is modelled. The `-r` count suffix is read again as options, as in the source.
- Following links with `-x l` is modelled by path; a directory reached under two names is opened under each.
- DottedQuad.IsIPv4: an octet of so many digits that the `int` holding it overflows is undefined in C; here it is a number that is too large.
- Host and service files and IPv6 text in `-i`: what they give is any input.
- Fixed-width terminal output, `safestrprt()` and its `^X` form, `usage()`.
- The Rust sources and the Python fixtures.
