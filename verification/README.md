# Verified core of Odamex

A model, in Dafny, of the parts of Odamex whose correctness is hard to see by reading: checksums, the
object archive behind level snapshots, the console's text layer, lists that are relinked in place, and
state machines that run over time. Where the source updates something in place the model does too:
methods with loops and classes with fields, each proved against a function on values; what the source
promises is then proved about those functions, for all inputs or for all runs.

`dafny verify dfyconfig.toml` checks everything.

## What is modelled

**CRC-32** (`Crc32Register`, `Crc32Bytewise`, `Crc32Slicing`, `Crc32Combine`, `Crc32Division`,
`Crc32Detection`). Ten implementations and the merging of checksums, on real 32-bit words. Two facts carry the
proofs: shifting in zero bits is linear over GF(2), and a whole byte of shifting depends only on the low eight
bits. The reference is long division by the generator polynomial; from it follows that any burst of up to 32 bits
is noticed, and that one of 33, in the shape of the generator, is not. The sum in the guard of the prefetching form
is a 64-bit `size_t`; the model says for which look-ahead distances it wraps around and lets the loop leave the
buffer.

**The archive** (`ArchiveBytes`, `ArchiveMemFile`, `ArchiveStream`, `ArchiveObjectTable`, `ArchiveGraph`,
`ArchiveRoundTrip`, `ArchiveThinkers`, `ArchiveFArchive`, `ArchiveSnapshot`, `ArchiveOrder`). A memory file that
grows by doubling and is compressed when closed; counts and strings; a class table; an object table threaded into
hash chains; and the depth-first writer and reader of cyclic object graphs. `ArchiveGraph` specifies writer and
reader as functions, `ArchiveRoundTrip` and `ArchiveThinkers` prove that saving and loading gives an isomorphic
graph, `ArchiveFArchive` has the methods that update file and tables in place, and `ArchiveSnapshot` puts
everything together from opening the file to loading it again. Positions and sizes are 32-bit: the model says for
which lengths the sums in `Read` and `Write` wrap around, and what then happens. `ArchiveOrder` says when the list
of thinkers comes back as it was: it is rebuilt in the order in which objects are met, with every thinker met.

**Console text** (`TextTokens`, `ConsoleText`, `ConsoleSplit`, `ConsoleAlias`, `ConsoleTable`, `ConsoleRun`,
`ConsoleArchive`, `SpawnInv`, `Wildcards`). The quoter and the tokenizer agree on every string. The command
splitter reads quotes by rules of its own; it agrees with the tokenizer on archived aliases except in one case,
stated exactly: a name that ends in a backslash together with a command that holds two slashes in a row. A
command that ends in a backslash does no harm, since the missed quote is the last character of the line. A name
or command that starts with a dollar sign comes back as the value of the variable of that name, if there is one
by then; for all tables and variables the model says what comes back, and when it is what was saved. `ConsoleRun`
executes text: aliases that run and redefine one another and files that execute files, with the locks and the
limit that bound their depth. The wildcard matcher is right, and stays inside the text, exactly for patterns without
question marks and without a run of stars that something follows.

**Lists changed in place** (`ThinkerRuns`, `ThinkerList`, `Particles`). The intrusive list of thinkers with
queued and lingering destruction and the record of what is deleted, and the two particle lists that share one array.

**Machines over time** (`LevelFlow`, `Scheduler`). Warmup, rounds and the end of the game with what clients are
told, and the scheduler that catches up.

Bytes in console text are characters below 256; `char` is signed, as on x86, so that bytes above 127 count as
blank. Memory addresses are numbers; the address of each object created while loading is given by an injective
function, which stands for the allocator. Console variables, players, the clock and the compressor are
parameters.

Three things differ from what comments or habits suggest, and follow the code: the rounding branch in
`readyToggle` is overwritten by the line behind it; `asInt` rounds to the nearest integer; and a `reset` that
enters the pre-round clears the countdown after it has sent it, so that the next tic starts the round at once.

## Model

| member | source | states |
|---|---|---|
| Crc32Bytewise.Bitwise | common/crc32.cpp:118-141 | the bit-at-a-time loop feeds every byte of the buffer into the register and complements it at both ends |
| Crc32Division.CrcIsRemainder | common/crc32.cpp:118-141 | the checksum is the remainder of the message polynomial, followed by 32 zeros, under long division by the CRC-32 generator of section 8 of RFC 1952: a definition that does not mention the register |
| Crc32Register.CrcConcat | common/crc32.cpp:118-141 | checksums chain: the checksum of a concatenation continues from the checksum of its first part |
| Crc32Register.AdvanceLinear | common/crc32.cpp:118-141 | shifting in zero bits is linear over GF(2): it distributes over exclusive-or, for any number of bits |
| Crc32Register.ByteStep | common/crc32.cpp:170-179 | eight steps depend only on the low byte: the rest of the register is shifted down |
| Crc32Detection.DetectsFourByteBursts | common/crc32.cpp:118-141 | changing any of four consecutive bytes changes the checksum, whatever precedes and follows them |
| Crc32Detection.DetectsBursts | common/crc32.cpp:118-141 | a change within any 32 consecutive bits of the message, at any alignment and whatever surrounds them, changes the checksum |
| Crc32Detection.MissesGenerator | common/crc32.cpp:118-141 | 32 is the most: adding the 33 coefficients of the generator anywhere in a message leaves the checksum as it was |
| Crc32Detection.FiveBytesCollide | common/crc32.cpp:118-141 | the five bytes 41 06 71 DB 01 have the checksum of five zeros, after any previous checksum |
| Crc32Detection.DetectsPrevious | common/crc32.cpp:118-141 | continuing from another previous checksum gives another checksum, for every buffer |
| Crc32Bytewise.HalfByte | common/crc32.cpp:145-165 | the loop over a 16-entry table equals the bit-at-a-time checksum for every buffer and every previous checksum |
| Crc32Bytewise.Tableless | common/crc32.cpp:184-234 | the multiplications act as carry-less products: the loop equals the bit-at-a-time checksum |
| Crc32Bytewise.Tableless2 | common/crc32.cpp:238-260 | the masked shifts equal eight steps: the loop equals the bit-at-a-time checksum |
| Crc32Slicing.BuildLookup | common/crc32.cpp:674-690 | the table recurrence fills slice k with the image of each byte after k + 1 whole bytes |
| Crc32Slicing.WordLookupAdvances | common/crc32.cpp:265-296 | four lookups in neighbouring slices advance a word by its own bytes and one more for each slice skipped |
| Crc32Slicing.FeedWord | common/crc32.cpp:265-296 | mixing in a little-endian word and advancing 32 bits is feeding its four bytes in order |
| Crc32Slicing.Bytes | common/crc32.cpp:170-179 | the byte-table loop equals the bit-at-a-time checksum |
| Crc32Slicing.SlicingBy4 | common/crc32.cpp:265-296 | slicing by 4 equals the bit-at-a-time checksum for every length and previous checksum |
| Crc32Slicing.SlicingBy8 | common/crc32.cpp:302-343 | slicing by 8 equals the bit-at-a-time checksum |
| Crc32Slicing.SlicingBy4x8 | common/crc32.cpp:347-396 | the four-fold unrolled form equals the bit-at-a-time checksum |
| Crc32Slicing.SlicingBy16 | common/crc32.cpp:402-469 | slicing by 16 equals the bit-at-a-time checksum |
| Crc32Slicing.SlicingBy16Prefetch | common/crc32.cpp:473-545 | the prefetching form equals the bit-at-a-time checksum; it stays inside the buffer exactly when 64 plus the look-ahead distance does not wrap around, or wraps to more than the length modulo 64 |
| Crc32Slicing.Fast | common/crc32.cpp:550-563 | the dispatcher equals the bit-at-a-time checksum |
| Crc32Combine.MatrixSquare | common/crc32.cpp:600-645 | squaring the matrix for n zero bits gives the matrix for 2n zero bits, in the other array |
| Crc32Combine.TimesAdvances | common/crc32.cpp:617-645 | multiplying by the matrix for n zero bits advances any register by n zero bits |
| Crc32Combine.FourZeroBits | common/crc32.cpp:585-615 | the matrix for one zero bit, squared twice |
| Crc32Combine.Combine | common/crc32.cpp:567-665 | the loop over the bits of the length, with the two arrays swapping roles, advances the first checksum by 8 zero bits for each byte of the second buffer and adds the second checksum |
| Crc32Combine.CombineIsConcat | common/crc32.cpp:567-665 | for all byte strings A and B, combining their checksums gives the checksum of A followed by B |
| ArchiveBytes.CountRoundTrip | common/farchive.cpp:572-602 | every 32-bit count decodes to itself and exactly its bytes are consumed, whatever follows |
| ArchiveBytes.StringRoundTrip | common/farchive.cpp:604-634 | a length-prefixed string decodes to its C string and exactly its bytes are consumed; unchanged exactly when it has no NUL |
| ArchiveBytes.NullStringRoundTrip | common/farchive.cpp:604-634 | a null pointer comes back as the empty string |
| ArchiveBytes.StringOverrunIff | common/farchive.cpp:223-245 | loading a string leaves the buffer exactly when its length, counted from behind the count, reaches past 2^32 and the 32-bit sum in the guard of Read wraps around; or when a file of 2^32 - 1 bytes ends inside the count |
| ArchiveBytes.LongestStringOverruns | common/farchive.cpp:588-634 | the five bytes FF FF FF FF 0F, wherever in a file they stand as the count of a string, make the load leave the buffer |
| ArchiveBytes.DwordRoundTrip | common/farchive.cpp:662-674 | a big-endian word decodes to itself |
| ArchiveStream.WriteCount | common/farchive.cpp:572-586 | the do-while loop appends exactly the variable-length form of the count |
| ArchiveStream.ReadCount | common/farchive.cpp:588-602 | the loop computes the decoder: the same value, rest and errors |
| ArchiveStream.WriteString | common/farchive.cpp:604-617 | appends the length-prefixed form |
| ArchiveStream.ReadString | common/farchive.cpp:619-634 | computes the decoder: value, rest, or the error its failure comes to at this place in the file, a read outside the buffer included |
| ArchiveMemFile.MemFile.Write | common/farchive.cpp:194-221 | appends the bytes to what was written, growing the buffer by doubling when they do not fit |
| ArchiveMemFile.WriteEnds | common/farchive.cpp:204-208 | up to 2^31 bytes the doubling loop finds a size; beyond, no number of turns does, since 2^31 doubles to 0; and from 2^32 on the sum in the guard wraps around, so that the write leaves the buffer |
| ArchiveMemFile.MemFile.Grow | common/farchive.cpp:204-211 | doubles from 16384 until the bytes fit and keeps what was written |
| ArchiveMemFile.MemFile.Read | common/farchive.cpp:223-245 | returns the next bytes and moves behind them; of more than is left it is refused and moves nowhere, or reads outside the buffer: exactly when position plus length reaches 2^32 |
| ArchiveMemFile.MemFile.Close | common/farchive.cpp:421-429 | keeps the stored form of the whole buffer, of which the bytes written are the front |
| ArchiveMemFile.MemFile.Reopen | common/farchive.cpp:407-419 | gives back the exploded block, unread |
| ArchiveMemFile.ExplodeImplode | common/farchive.cpp:269-349 | exploding an imploded buffer restores it, whether it was compressed or stored as it is |
| ArchiveMemFile.WriteCloseReopenRead | common/farchive.cpp:194-429 | after any writes, one close and a reopen, any reads that total no more than was written return the written bytes in order |
| ArchiveObjectTable.ObjectTable.MapObject | common/farchive.cpp:972-995 | appends the object and returns its index; growing the table keeps every earlier entry and every hash chain |
| ArchiveObjectTable.ObjectTable.FindObjectIndex | common/farchive.cpp:1002-1012 | following a hash chain finds the index at which a search from the end of the table finds the object, or all-ones; the links strictly decrease |
| ArchiveGraph.MapNew | common/farchive.cpp:746-819 | mapping an object leaves fewer objects to map, so writing cyclic graphs terminates |
| ArchiveRoundTrip.RoundTripRef | common/farchive.cpp:746-896 | reading what was written for a reference, with reader and writer tables in step, gives the image of the reference, keeps the tables in step and consumes exactly its bytes |
| ArchiveRoundTrip.NewHeaderRoundTrip | common/farchive.cpp:898-970 | the class named or numbered in the header of a new object is read as the class of the object, with exactly the header consumed, and both class tables get the same entry |
| ArchiveThinkers.ThinkersRoundTrip | common/dthinker.cpp:51-87 | the same for a whole list of thinkers |
| ArchiveThinkers.WritesOnlyReachable | common/farchive.cpp:746-819 | no object is archived that cannot be reached |
| ArchiveThinkers.SaveLoadIsomorphic | common/dthinker.cpp:51-87 | loading what was saved gives a graph isomorphic to the objects reachable from the thinkers: a bijection that keeps classes, data and every pointer, sharing and cycles included |
| ArchiveFArchive.FArchive.WriteObject | common/farchive.cpp:746-819 | the method appends the bytes and extends the tables as the specification of the depth-first writer says |
| ArchiveFArchive.FArchive.ReadObject | common/farchive.cpp:821-896 | the method returns the value, the tables, the objects created and the position that the specification of the reader says, or the error that its failure comes to at this place in the file |
| ArchiveFArchive.FArchive.AddClass | common/farchive.cpp:898-941 | both halves of the class table get the new class under the next index |
| ArchiveFArchive.FArchive.StoredIndex | common/farchive.cpp:758-790 | the index under which the object was archived before; all-ones if it was not, or its class was not |
| ArchiveFArchive.FArchive.ReadClass | common/farchive.cpp:915-953 | the class of that name, registered under the next index, or the error for a class table that is full or a name that is unknown |
| ArchiveFArchive.FArchive.ReadStoredClass | common/farchive.cpp:955-970 | the class registered under the index, or the error for an index too high |
| ArchiveSnapshot.SaveThinkers | common/dthinker.cpp:51-68 | the loop over the thinker list, which for a reset passes over those of the player type, appends what the specification says |
| ArchiveSnapshot.LoadThinkers | common/dthinker.cpp:69-87 | the loop that reads thinkers computes the specification of the reader |
| ArchiveSnapshot.SnapshotRoundTrip | common/g_level.cpp:593-621 | writing, closing, reopening and reading a snapshot gives an isomorphic graph of the thinkers archived, for a level change or for a reset, and for any compressor that the decompressor inverts |
| ArchiveOrder.CreateLinks | common/dthinker.cpp:89-101 | creating an object while loading puts it at the end of the thinker list if its class descends from DThinker, and otherwise leaves the list alone |
| ArchiveOrder.LoadedListIsFirstMet | common/dthinker.cpp:51-101 | the loaded thinker list is the image of the thinkers in the order in which saving first met them; so it is the image of the saved list if and only if saving met them in the order of the list |
| ArchiveOrder.NothingElseLinked | common/dthinker.cpp:51-101 | the loaded list holds nothing but images of the saved thinkers if and only if no other thinker, such as one that lingers destroyed, is reachable from them |
| ArchiveOrder.InOrderUnlessAhead | common/dthinker.cpp:51-101 | saving meets the thinkers in the order of the list whenever nothing reachable from the first n of them is a thinker further down or outside the list, for each n |
| ArchiveOrder.InOrderFences | common/dthinker.cpp:51-101 | conversely, if saving meets them in the order of the list, the thinkers reachable from its first n are its first m, for some m of at least n, with none from outside the list among them |
| ArchiveOrder.ThreeReordered | common/dthinker.cpp:51-101 | three thinkers of which the first points to the third come back with the third in front of the second |
| TextTokens.TokenizeString | common/cmdlib.cpp:283-299 | the loop splits at every occurrence of the delimiter |
| TextTokens.JoinTokenized | common/cmdlib.cpp:278-299 | joining the tokens of a string gives the string |
| TextTokens.TokenizedJoined | common/cmdlib.cpp:278-299 | tokenizing joined pieces gives the pieces back exactly when no delimiter occurs early in a piece, the last piece holds none, and they are not a single empty piece |
| Wildcards.CheckWildcards | common/cmdlib.cpp:562-596 | the loops and the recursion compute the specification, which says when the text pointer is moved past the terminating NUL; they terminate |
| Wildcards.SimpleIsRight | common/cmdlib.cpp:562-596 | for a pattern without question marks and without two stars in a row (except at its end), the matcher decides the glob, ignoring case, for every text |
| Wildcards.RightIffSimple | common/cmdlib.cpp:562-596 | those patterns are exactly the ones for which the matcher is right about every text and stays inside it |
| ConsoleText.QuoteString | common/c_dispatch.cpp:767-785 | quotes a string and escapes quotes, semicolons and backslashes |
| ConsoleText.EscapeWadList | common/c_dispatch.cpp:789-801 | quotes each string and joins them with spaces |
| ConsoleText.Parser.Next | common/c_dispatch.cpp:563-639 | one call of the parser takes one token off the captured text, as the specification says |
| ConsoleText.ParseQuotedString | common/c_dispatch.cpp:563-639 | parsing a quoted string gives the string and stops right behind it, whatever follows |
| ConsoleText.TokensOfWadList | common/c_dispatch.cpp:789-801 | the tokens of an escaped list are the list, for any strings |
| ConsoleSplit.AddCommandString | common/c_dispatch.cpp:320-401 | the scanner hands over the commands that the specification cuts at semicolons outside quotes, up to a comment, without the spaces around them |
| ConsoleAlias.QuoteEndOfEscaped | common/c_dispatch.cpp:346-373 | the scan of a quoted part stops at the closing quote exactly when the text in it does not end in a backslash |
| ConsoleAlias.ArchivedLineRuns | common/c_dispatch.cpp:822-825 | executing an archived alias line makes exactly one call, with the tokens alias, name and command; unless the name ends in a backslash and the command holds two slashes in a row, when the tokens are alias and name only |
| ConsoleTable.DoCommand | common/c_dispatch.cpp:200-253 | a command string comes to nothing, to an access behind an empty first token, to a player action or to a call with its expanded arguments |
| ConsoleRun.Console.AliasCommand | common/c_dispatch.cpp:845-884 | removes, replaces or defines an alias; a command cannot become one |
| ConsoleArchive.ArchiveAliases | common/c_dispatch.cpp:822-835 | prints one line for each alias, in the order of the map |
| ConsoleTable.AliasTableKeeps | common/c_dispatch.cpp:845-884 | the alias command touches at most the one name it is given, leaves every command alone, and files aliases under their own lower-case names |
| ConsoleRun.LinesKeep | common/c_dispatch.cpp:407-507 | whatever a file does, with aliases that define and run aliases and execute files inside one another: no command becomes an alias or goes, every alias is filed under its own lower-case name, and the calls inside one another stay fewer than the aliases there are and the 32 files that exec allows |
| ConsoleRun.EndsUnlessAliasesGrow | common/c_dispatch.cpp:407-712 | executing a file ends, or by then there are more aliases than any bound that one sets |
| ConsoleRun.RoomMakesNoDifference | common/c_dispatch.cpp:407-712 | an execution that fits one bound on the calls inside one another has the same result under every larger one |
| ConsoleRun.Console.RunLocked | common/c_dispatch.cpp:684-712 | an alias that runs is locked, and ignored if it is run again; otherwise its text is executed with the arguments behind it, and it is unlocked |
| ConsoleRun.Console.ExecLines | common/c_dispatch.cpp:456-504 | executes the commands of each line in order |
| ConsoleArchive.ArchivedLineDoes | common/c_dispatch.cpp:822-884 | executing one archived line calls the alias command once, with the name and the command as C_DoCommand expands them, or with the expanded name alone in the one case above; for every name and command |
| ConsoleArchive.ArchivedLineRestores | common/c_dispatch.cpp:822-884 | one archived line restores an alias that is not defined if and only if the line is not cut in two, no variable changes the name (up to case) and none changes the command |
| ConsoleArchive.LaterVariable | common/c_dispatch.cpp:822-884 | an alias for $later, defined before a variable of that name existed, is not restored |
| ConsoleArchive.LinesAt | common/c_dispatch.cpp:822-884 | after all archived lines a name holds what the last alias defined under it defines, commands excepted; for every table and any variables |
| ConsoleArchive.ArchiveThenExec | common/c_dispatch.cpp:822-884 | archiving all aliases and executing the lines in a console that has only its built-in commands gives the same table if and only if every alias is given back by some line: one that is not cut in two and whose expanded name and command are those of the alias |
| ConsoleArchive.ArchiveThenExecByName | common/c_dispatch.cpp:822-884 | when no variable changes a name, that is so if and only if no line is cut in two and no variable changes a command |
| ConsoleArchive.ArchiveFile | common/c_dispatch.cpp:456-504 | exec reads the archived aliases as the lines that were printed if and only if no name and no command holds a newline |
| ConsoleArchive.ExecArchive | common/c_dispatch.cpp:407-884 | from end to end: with no newline in them, executing the file of archived aliases in a console that has only its built-in commands gives the same table if and only if every alias is given back |
| ConsoleRun.Console.Exec | common/c_dispatch.cpp:456-504 | executes the lines of the file that is found, unless it is being executed already or 32 files are |
| SpawnInv.AtoiDecimal | common/g_spawninv.cpp:138-167 | reading a printed 32-bit number gives the number |
| SpawnInv.OwnedFromWeapons | common/g_spawninv.cpp:94-163 | the weapon characters read back give the weapons owned |
| SpawnInv.SpawnInvSerialize | common/g_spawninv.cpp:312-378 | pushes the parameters of the inventory and joins them with spaces |
| SpawnInv.SpawnInventories.SetupSpawnInventory | common/g_spawninv.cpp:406-544 | commits the parsed inventory, or the default one when the variable cannot be parsed |
| SpawnInv.SetWeapons | common/g_spawninv.cpp:239-262 | commits the weapons, or rejects an unknown character; a character for no weapon is written behind the end of the array |
| SpawnInv.OverrunIff | common/g_spawninv.cpp:239-262 | the array is overrun exactly when the character for no weapon follows nothing but weapons, and the weapons are set exactly when there is nothing else |
| SpawnInv.ParseSerialized | common/g_spawninv.cpp:312-544 | parsing what was printed gives the normalized inventory, for every inventory |
| SpawnInv.RoundTripIffNormal | common/g_spawninv.cpp:312-544 | printing and parsing restores an inventory exactly when it is in normal form |
| SpawnInv.SerializeAgain | common/g_spawninv.cpp:312-544 | printing the normalized inventory prints the same exactly when there was health left |
| SpawnInv.PrintIsStable | common/g_spawninv.cpp:312-544 | printing, parsing and printing again is printing, for every inventory the parser can produce from a default one with health |
| ThinkerList.ThinkerSystem.Append | common/dthinker.cpp:89-101 | the constructor links the new thinker in at the end of the list |
| ThinkerList.ThinkerSystem.Unlink | common/dthinker.cpp:123-130 | taking a thinker out leaves the others linked in order in both directions |
| ThinkerList.ThinkerSystem.SweepLingering | common/dthinker.cpp:139-152 | the loop that erases while it runs deletes exactly the lingering thinkers without references, each once and in order, and keeps the others in order |
| ThinkerList.ThinkerSystem.Construct | common/dthinker.cpp:89-101 | a new thinker: the state after it, and a list that is exactly the live thinkers |
| ThinkerList.ThinkerSystem.Destroy | common/dthinker.cpp:117-153 | the state after it, and a list that is exactly the live thinkers in the order of construction |
| ThinkerList.ThinkerSystem.DestroyAllThinkers | common/dthinker.cpp:161-181 | the state after it, with the record of what was deleted and in which order; the loop reads each link before it destroys the thinker |
| ThinkerList.ThinkerSystem.EndFrame | common/dobject.cpp:106-117 | deletes the objects in the queue, each once and in order, and empties it |
| ThinkerList.ThinkerSystem.Delete | common/dobject.cpp:67-86 | delete runs the destructor, which nulls the entry in the queue unless this is a clean-up, and may not be called twice for an object |
| ThinkerList.ThinkerSystem.DeletedIsGone | common/dthinker.cpp:117-181 | in every state the methods reach, a deleted thinker is in no list, waits in no queue, and was deleted once |
| ThinkerList.ThinkerSystem.SetRefCount | common/actor.h:380-410 | changing the reference count changes nothing else |
| ThinkerList.ThinkerSystem.DeleteQueued | common/dobject.cpp:67-86 | deleting a queued object nulls its last entry in the queue |
| ThinkerRuns.AlwaysOnePlace | common/dthinker.cpp:89-181 | after any run of constructions, destructions, reference changes, ends of frames and deletions, every thinker is in exactly one of the live list, the deletion queue, the lingering list and the freed ones, once; it is live exactly when it was not destroyed |
| ThinkerRuns.DestroyTwice | common/dthinker.cpp:117-121 | a second Destroy changes nothing |
| ThinkerRuns.LiveAfter | common/dthinker.cpp:89-181 | new thinkers come last in the list, destroyed ones leave it, and nothing else changes it |
| ThinkerRuns.LingersWhileReferenced | common/dthinker.cpp:133-152 | a lingering thinker is freed exactly when another is destroyed while nothing refers to it |
| ThinkerRuns.FreedForGood | common/dobject.cpp:106-117 | nothing that was freed comes back |
| ThinkerRuns.DestroyAllFrees | common/dthinker.cpp:161-181 | destroying everything frees every thinker ever made, once |
| Particles.ParticleSystem.ThinkParticles | common/c_effect.cpp:283-331 | the two chains stay a partition of the particles that 16-bit links reach; survivors keep their order and age by one call, and exactly those that fade past zero or run out of time are cleared and put in front of the inactive list |
| Particles.SurvivorsInOrder | common/c_effect.cpp:283-331 | what survives is in the order it was in |
| Particles.ParticleSystem.NewParticle | common/r_things.h:54-64 | moves the head of the inactive list to the head of the active one |
| Particles.ParticleSystem.JitterParticle | common/c_effect.cpp:208-232 | sets up the new particle for its time to live |
| Particles.ParticleSystem.constructor | client/src/r_things.cpp:1109-1137 | links the particles into the inactive list; the list holds all of them if and only if there are at most 65535, and otherwise ends at particle 65534, whose 16-bit link reads as the end |
| Particles.ParticleSystem.PerformAll | common/c_effect.cpp:208-331 | after any sequence of calls that set particles up or age them, the particles in use and their lives are those of the specification, which hands a particle out only while it is not in use and none only when all are |
| Particles.StaysInUse | common/c_effect.cpp:208-331 | whatever else is called, a particle in use stays so, aging once with each call of P_ThinkParticles, for as long as its life says |
| Particles.LifeInUse | common/c_effect.cpp:208-331 | until it is handed out again, a particle is in use after any sequence of calls if and only if it outlives as many calls of P_ThinkParticles as there are among them |
| Particles.JitterLasts | common/c_effect.cpp:208-331 | in any sequence of calls, a particle set up for ttl calls is in use up to its last one and then no more until it is handed out again: its ttl-th call, for a ttl of up to 256 |
| Particles.LastsLifetime | common/c_effect.cpp:290-304 | every particle is removed on exactly the call that a closed formula of its time, opacity and fading gives |
| Particles.LastsForItsTime | common/c_effect.cpp:208-304 | a particle set up to last t calls is removed on exactly its t-th call if and only if t is at most 256 |
| LevelFlow.LevelState.SetState | common/g_levelstate.cpp:531-592 | the new state with its countdown, start time, round number and winner, and one snapshot of it to the callback |
| LevelFlow.LevelState.Unserialize | common/g_levelstate.cpp:499-507 | a client takes over every field of a snapshot |
| LevelFlow.LevelState.Tic | common/g_levelstate.cpp:333-475 | every branch of a tic, with the level exit when the end-of-game countdown runs out |
| LevelFlow.LevelState.Reset | common/g_levelstate.cpp:179-220 | the state a reset enters, announced before its countdown is cleared |
| LevelFlow.LevelState.ReadyToggle | common/g_levelstate.cpp:246-293 | starts or stops the countdown as the ready players ask |
| LevelFlow.LevelState.EndRound | common/g_levelstate.cpp:299-319 | the end of the round or of the game, or warmup |
| LevelFlow.StepKeepsRounds | common/g_levelstate.cpp:179-592 | warmup has round 0 and rounds are numbered from 1: kept by every operation except, exactly, ending a round that is not the last while the number is 0 |
| LevelFlow.CountdownLasts | common/g_levelstate.cpp:333-475 | a warmup or end-round countdown, however it was started, is ended by a later tic exactly when its time has passed since, and then by the next round |
| LevelFlow.EndgameLasts | common/g_levelstate.cpp:333-475 | an end-of-game countdown, however it was started, leaves the level on a later tic exactly when its time has passed since |
| LevelFlow.ReadyDecides | common/g_levelstate.cpp:246-293 | with somebody ready, the countdown runs exactly when the ready players are no fewer than the asked-for share of the players |
| LevelFlow.EndRoundAfterEarlyEnd | common/g_levelstate.cpp:299-328 | ending the game from warmup and then the round gives an end-of-round state of round 0, although the round is ended from an end state |
| LevelFlow.RunKeepsRounds | common/g_levelstate.cpp:179-592 | the round numbers are right after every run without such a call |
| LevelFlow.NumberCountsExpired | common/g_levelstate.cpp:333-475 | in every such run the number is 0, or one more than the end-round countdowns that have run out since the match started |
| LevelFlow.DefenderAfterRun | common/g_levelstate.cpp:70-81 | in every run without a new match, the team on defense is the one that is due after the end-round countdowns that have run out |
| LevelFlow.EachTeamDefendsOnceInARun | common/g_levelstate.cpp:70-81 | in any n rounds in a row that a run reaches, n being the number of teams, every team defends exactly once |
| LevelFlow.RunKeepsSync | common/g_levelstate.cpp:482-592 | in every run a client that takes over each snapshot agrees with the server on state, round number and start time, and on the countdown unless the server cleared it in a pre-round |
| LevelFlow.StepKeepsSync | common/g_levelstate.cpp:482-592 | the same for one operation; the winner agrees whenever a snapshot was sent |
| LevelFlow.ResetCountdown | common/g_levelstate.cpp:179-220 | after a reset the countdowns agree exactly when it did not enter a pre-round of more than zero tics |
| LevelFlow.ResetSkipsPreround | common/g_levelstate.cpp:219 | the cleared countdown makes the next tic start the round that the snapshot has announced for later |
| LevelFlow.TicKeepsPreround | common/g_levelstate.cpp:361-374 | a pre-round that a tic entered ends exactly when its time is up |
| Scheduler.CappedTaskScheduler.Run | common/d_main.cpp:1075-1088 | the loop runs the callback once for each duration owed, up to the limit |
| Scheduler.AlwaysConserved | common/d_main.cpp:1062-1088 | after any runs, the time left over plus the time spent on callbacks is one duration more than the time passed |
| Scheduler.RunConserves | common/d_main.cpp:1075-1088 | the same for one run, which runs at most the limit of callbacks |
| Scheduler.CatchesUp | common/d_main.cpp:1075-1088 | a run catches up exactly when less than limit plus one durations were owed |
| Scheduler.CaughtUpIsOnTime | common/d_main.cpp:1075-1088 | the callback has run once at the start and once for each duration since, exactly when less than a duration is owed |
| Scheduler.NeverDrifts | common/d_main.cpp:1062-1088 | with runs less than limit durations apart that is so after each of them |
| Scheduler.CappedTaskScheduler.GetNextTime | common/d_main.cpp:1090-1093 | the time at which the callback is next due: after any run, a run at that time or later calls it, and a run before it does not |
| Scheduler.NextTimeIsExact | common/d_main.cpp:1090-1093 | a run at the time getNextTime gives, or later, runs the callback, and one before it does not |
| Scheduler.NextTimeIsScheduled | common/d_main.cpp:1090-1093 | after any runs, however late, that time is one duration after the start for each callback so far, so the unsigned subtraction never goes below zero |

## Left out

- ArchiveMemFile.MemFile.Write: required to stay within 2^31 bytes; `WriteEnds` says that beyond it the loop of the source does not end, or the write leaves the buffer.
- ArchiveFArchive.FArchive.ReadObject: hub travel is off, so the player number is read and dropped; a failed load ends at the error, as I_Error does, and a read outside the buffer is not followed further.
- ArchiveGraph.WriteRef: the Serialize body of each class is one list of bytes, words, strings and references; game-specific bodies and back-pointers to players are not modelled.
- ArchiveSnapshot.LoadThinkers: the thinkers of before are destroyed first, which `ThinkerRuns.DestroyAllFrees` is about, so the list of `ArchiveOrder` starts empty; spawning the brain targets afterwards is not modelled.
- ArchiveSnapshot.SnapshotRoundTrip: a snapshot holds only its thinkers, without players, world, polyobjects, sounds and level variables.
- ConsoleRun.LinesKeep: of the commands only alias and exec have an effect, so variables stay as they are and `if` runs nothing; conditional tags in files are not modelled. An alias that is deleted while it runs is read after it is freed, which is undefined and ends the execution here.
- ConsoleTable.DoCommand: rcon arguments, key tracking and the lookup of commands and variables by name are not modelled.
- SpawnInv.SetWeapons: what happens after a write behind the end of the weapon array, or after atoi of a number that does not fit, is undefined and not modelled further.
- ThinkerList.ThinkerSystem.Destroy: overriding Destroy methods and destructors of particular thinkers are not modelled, nor are orphaned copies and the inactive shutdown mode.
- ConsoleArchive.ArchiveThenExec: names and commands hold no NUL, as C strings do not.
- Particles.ParticleSystem.ThinkParticles: positions, velocities, colours and sprites are not modelled.
- LevelFlow.LevelState.Tic: integers are unbounded, floating-point variables are real numbers, and messages are dropped.
- Scheduler.CappedTaskScheduler.GetNextTime: the source leaves mFrameStartTime uninitialised until the first run; here it starts at 0, and what the time means is stated from the first run on.
- Scheduler.CappedTaskScheduler.Run: times are unbounded, and the clock does not run backwards.
- The literal 4096-entry CRC table and the big-endian branches: the table is built from its recurrence, for little-endian loads.
- LZO itself: any pair of functions of which the second inverts the first.
- The 16-bit, 64-bit, floating-point and colour operators of the archive: they would repeat the word operator.
- DestroyMostThinkers and RunThinkers: they depend on players and on arbitrary callbacks.
- The spawninv console command and giving the inventory to players: they only call what is modelled.
- Countdown display, join timer, winner queries and printing in the level state.
- Floating-point variable formatting, DeHackEd, MAPINFO and network code.
