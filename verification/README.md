# Verified models of the DuckDB-Wasm core

A model, in Dafny, of the parts of DuckDB-Wasm that are hardest to get right by reading them, and
proofs of what they promise:

* the page buffer of `lib/src/io/file_page_buffer.cc`, twice: as the class that it is, proved against
  pure functions on its state, and as a set of small steps that threads interleave;
* the two readers on top of it, the sliced input stream and the buffered file system;
* `SharedMutex` and the parking lot under it;
* the JSON scanner and the keyed FNV-1a hashes of the `hash_ext` extension;
* the parsers that shred nested JSON into Arrow columns, the table readers that stream a document in
  batches, and the inference of integer types;
* the glob compiler, with the part of ECMA-262 regular expressions that it emits;
* the block sizes of the file statistics.

`dafny verify dfyconfig.toml` checks everything.

## How the model is laid out

| files | contents |
|---|---|
| `page_state`, `page_laws`, `page_policy`, `page_files`, `page_truncate` | the page buffer's state as a value, its operations as functions, what each of them keeps |
| `page_queues`, `page_history` | the replacement policy: what the two queues mean, over whole runs |
| `page_runs`, `page_pins` | runs of operations refine a plain table of files; pins, capacity, and runs that show the limits |
| `page_buffer` | `FilePageBuffer` as a class; every method makes of the fields what the functions say |
| `page_steps` | one step per latch-protected section, any number of threads |
| `streams`, `buffered_files` | `InputFileStreamBuffer`, and reads and writes of `BufferedFileSystem` |
| `parking_lot`, `shared_mutex` | the bucket lists; the mutex word and the lot as one step system |
| `json_scan`, `json_grammar`, `fnv` | the byte scanner, the grammar it has to agree with, the hashes |
| `shred`, `shred_laws`, `shred_decode`, `shred_parser` | JSON to columns, what a value means for a type, columns back to values |
| `json_table`, `json_reader`, `json_columns`, `json_infer` | parser events, batches, table readers, type inference |
| `glob`, `regex`, `regex_laws`, `glob_meaning`, `glob_groups`, `glob_backslash` | the compiler, regular expressions, that meaning is preserved, and when not |
| `file_stats` | block sizing and counters |

Closed predicates such as `PageState.Ok` are opened by name (`PageState.OpenOk`); the keys they are
quantified over (`Unfold` and the like) carry no information.

The page size is a parameter, pages are numbered by repeated addition (`PagesAreShifts` says that this
is the shift), and the directory is keyed by file and page (`FrameIDRoundTrip` says that this is the
64-bit word).  The file system below the page buffer is a map from paths to byte sequences.  Two things
that the sources leave to chance are parameters: the bytes a newly allocated page buffer happens to hold,
and how many bytes of an append the file system takes at once.  JSON documents arrive as values or as
parser events; regular expressions are those of section 15.10 of ECMA-262, 3rd edition; JSON text is that
of sections 2 to 7 of RFC 8259; UTF-8 is section 4 of RFC 3629.

## Findings

Where the code does not do what its names or its documentation say, the model keeps the code and the
exact condition is proved.

* `try_lock_shared` tests the value it loaded before its `fetch_add`, and not the fetched one, which is
  unused (lib/src/utils/shared_mutex.cc:35-39).  Exclusion is proved with the test on the fetched value
  (`SharedMutex.MutualExclusion`).  A run of the code as written keeps writers and readers apart exactly if
  no `fetch_add` of a reader comes upon an exclusively locked word (`SharedMutex.ExclusionAsWritten`), and
  such a run exists (`SharedMutex.ReaderBesideWriter`).
* A write to a file that is not open for appending goes to the end of the file, wherever it was asked for
  (lib/src/io/file_page_buffer.cc:557), and a write in place past the end of the file is counted but lost.
  `PagePins.WriteIsPositional` says exactly when one call writes where it should, and
  `BufferedFiles.WriteIsExact` when the loop of the buffered file system does.
* A file that is buffered without WRITE and is opened again with WRITE is opened a second time in the file
  system (lib/src/io/file_page_buffer.cc:245-252 and 635-642), while its size, its frames and its flags stay.
  With CREATE_NEW among the flags, as lib/src/webdb.cc:1241-1243 passes them, this empties the file below its
  pages.  An open keeps the directory in order exactly if it does not do that to a file that holds any
  bytes (`PageFiles.OpenKeeps`); `PagePins.ReopenReadsBlank` is a reader who is then served whatever the page's
  buffer held.  As the flags stay, every write through the reopened file is refused
  (`PagePins.ReopenedIsReadOnly`).
* `Truncate` measures every resident page of the file by the distance from its start to the new end, which may
  be more than a page (line 779), and leaves the bytes behind the old end as they were in the buffer.  It is
  right exactly if every resident page spans the new end, and where the file grows, holds the bytes there that
  the file system fills up with (`PageTruncate.TruncateKeeps`).  `PagePins.TruncateOverruns` is a run in which a
  page claims more bytes than its buffer has, although the file keeps its size.
* A page beyond the end of the file may be fixed: its data size wraps around and is cut to a whole page
  (line 100), and it shows what its buffer held before.  A fix keeps the directory in order exactly if the page
  starts within the file (`PagePolicy.FixIsInOrder`, `PagePolicy.FixBeyondTheEnd`).
* A hit never evicts, so a fix can leave more frames than the capacity although another frame is unused:
  exactly if that was so before (`PagePins.FixIsRoomy`); `PagePins.HitCanExceedCapacity` is a run.  From the
  empty buffer, the frames stay within the capacity throughout a run exactly if at no fix more pages than that
  are held at once (`PageHistory.RunFits`).
* A slice to an empty range at the end of a file that ends on a page boundary leaves the old get area in
  place, and the position then wraps around.  A read after a slice is right exactly if the range is not
  empty, or the file does not end on a page boundary, or the old get area was at its start or used up
  (`Streams.InputFileStreamBuffer.SliceAndRead`); `Streams.SliceBehindTheEnd` reads a stale byte.
* The type code of a union value is cast to eight bits before it is looked up, and the table is indexed
  without a test.  A pair is taken under its own code exactly if that is a code of the type; under another
  exactly if the cast makes it one; and the lookup leaves the table exactly if the low byte of the code is
  above the highest code of the type (`ShredParser.CodesAreTruncated`).
* The glob compiler passes backslashes through.  The meaning of a pattern is kept exactly if every backslash
  stands before `/`, `=`, `!` or `,` (`GlobBackslash.BackslashesAreHarmless`).
* `json_find_value` cuts an object or an array off at the first delimiter after its opening bracket
  (`JsonGrammar.ContainerIsCutOff`), and drops the quotes of a string.  The key-list hash takes a missing member
  for `null`, for the string `null` and for the placeholder text.  Two rows feed it the same bytes exactly if,
  key by key, both members count as missing or have the same text (`Fnv.RowsAgree`); `Fnv.DifferentRowsAlike`
  gives pairs of rows that differ, among them `[1,2]` and `[1,3]`, and a number and the string of its digits.

## Model

| member | source | states |
|---|---|---|
| PageState.FrameIDRoundTrip | lib/src/io/file_page_buffer.cc:24-33 | file and page come back from the 64-bit frame id, the page exactly if it passes the assertion of `BuildFrameID` |
| PageState.FrameIDsAreUnique | lib/src/io/file_page_buffer.cc:24-33 | different pages of any files have different frame ids |
| PageState.PagesAreShifts | lib/src/io/file_page_buffer.cc:91-117 | page start, page number and place in the page are product, quotient and remainder |
| PageRuns.RunRefines | lib/src/io/file_page_buffer.cc:91-781 | over every run of open, reopen, read, write, append, truncate, flush, fix, release and close, with whatever is evicted and written back on the way, answers and files are those of a plain table of byte sequences; opens and truncations are those of which `OpenKeeps` and `TruncateKeeps` say that they are right |
| PageRuns.StepRefines | lib/src/io/file_page_buffer.cc:91-781 | the same for each single operation, and it keeps the directory invariant |
| PageRuns.ReadRefines | lib/src/io/file_page_buffer.cc:525-543 | a read returns the bytes of the plain file, up to the end of a page |
| PageRuns.WriteRefines | lib/src/io/file_page_buffer.cc:546-580 | a write does to the plain file what the branch of line 557 says |
| PagePolicy.FlushFileSyncs | lib/src/io/file_page_buffer.cc:194-212 | a flush shows no reader a change, and afterwards the disk holds what the readers see |
| PagePolicy.FixKeeps | lib/src/io/file_page_buffer.cc:406-523 | a fix, with all evictions it brings about, keeps the directory in order and shows no reader a change |
| PagePolicy.FrameShowsFile | lib/src/io/file_page_buffer.cc:91-117 | a resident frame holds its share of the file as the readers see it |
| PagePolicy.MakeRoomEffect | lib/src/io/file_page_buffer.cc:379-385 | the eviction loop stops below the capacity or with every frame in use, evicts no frame in use and goes on only as long as the frames reach the capacity |
| PageFiles.ReleaseKeeps | lib/src/io/file_page_buffer.cc:119-191 | a released file loses nothing: its bytes are on disk and its frames are gone before its id is free |
| PageFiles.OpenKeeps | lib/src/io/file_page_buffer.cc:216-307 | opening does to the files what the file system does to them, and keeps ids, names, sizes and frames in order exactly if no reopening empties a buffered file |
| PagePins.ReopenReadsBlank | lib/src/io/file_page_buffer.cc:635-642 | after such a reopening a page is loaded with the file's old size and whatever its buffer held |
| PagePins.ReopenedIsReadOnly | lib/src/io/file_page_buffer.cc:245-252 | writes and appends through a reopened file are refused |
| PageTruncate.TruncateKeeps | lib/src/io/file_page_buffer.cc:751-781 | a truncation cuts the file off or fills it up for its readers, and keeps the directory in order, exactly if every resident page of the file spans the new end |
| PagePins.TruncateOverruns | lib/src/io/file_page_buffer.cc:770-780 | a run after which a page claims more bytes than its buffer has |
| PagePolicy.FixIsInOrder | lib/src/io/file_page_buffer.cc:91-117 | a fix keeps the directory in order exactly if the page starts within the file |
| PagePolicy.FixBeyondTheEnd | lib/src/io/file_page_buffer.cc:91-117 | a page beyond the end gets a whole page of what its buffer held |
| PageRuns.NoIdIsLost | lib/src/io/file_page_buffer.cc:274-296 | ids run out exactly when 65535 files are open: every id is live or free |
| PageQueues.VictimIsTheOldest | lib/src/io/file_page_buffer.cc:309-335 | the victim is the unused frame loaded first of those fixed once; if they are all in use, the one of the others that was fixed last the longest ago; none only if all are in use |
| PageQueues.FixKeepsTwoQ | lib/src/io/file_page_buffer.cc:406-523 | after a fix the FIFO queue still holds the frames fixed once, in load order, and the LRU queue the others, in the order of their last fix |
| PageQueues.DropPagesKeepsTwoQ | lib/src/io/file_page_buffer.cc:134-148 | dropping a file disturbs neither queue |
| PageHistory.RunKeepsTwoQ | lib/src/io/file_page_buffer.cc:309-523 | over every run both queues mean what the record of all fixes of the run says, and every eviction takes the oldest frame nobody uses, told by the record at that point |
| PageHistory.RunKeepsPins | lib/src/io/file_page_buffer.cc:75-85 | over every run in which no file leaves the buffer while a page of it is held, a frame has as many users as references were handed out and not taken back |
| PageHistory.RunFits | lib/src/io/file_page_buffer.cc:379-469 | over every run the frames stay within the capacity exactly if at no fix more pages are held at once |
| PageHistory.RunFromEmpty | lib/src/io/file_page_buffer.cc:75-523 | all three, from the empty buffer |
| PageHistory.MakeRoomEvictsOldest | lib/src/io/file_page_buffer.cc:379-385 | every eviction of the loop is the oldest in its turn |
| PagePins.StepPins | lib/src/io/file_page_buffer.cc:75-85 | each operation conserves the pins |
| PagePins.FixIsRoomy | lib/src/io/file_page_buffer.cc:379-395 | a fix ends within the capacity, or with every other frame in use, exactly if it was a miss or that was so before |
| PagePins.HitCanExceedCapacity | lib/src/io/file_page_buffer.cc:458-469 | a run from the empty buffer whose last fix leaves an unused frame above the capacity |
| PagePins.WriteIsPositional | lib/src/io/file_page_buffer.cc:546-580 | exactly when a write does what a positional write of the reported count does |
| PageBuffer.FilePageBuffer.constructor | lib/src/io/file_page_buffer.cc:216-216 | the empty buffer and an empty record of fixes |
| PageBuffer.FilePageBuffer.FlushFrame | lib/src/io/file_page_buffer.cc:721-748 | a dirty frame goes to its place in its file and is clean |
| PageBuffer.FilePageBuffer.FindVictim | lib/src/io/file_page_buffer.cc:309-335 | the search finds the victim |
| PageBuffer.FilePageBuffer.EvictAnyBufferFrame | lib/src/io/file_page_buffer.cc:309-377 | the victim is flushed and dropped, and its buffer handed on; without a victim nothing happens |
| PageBuffer.FilePageBuffer.EvictToCapacity | lib/src/io/file_page_buffer.cc:379-385 | the loop terminates with the state and the buffer that the specification gives |
| PageBuffer.FilePageBuffer.AllocateFrameBuffer | lib/src/io/file_page_buffer.cc:379-395 | the last evicted buffer, or a free one, or a new one |
| PageBuffer.FilePageBuffer.FixPage | lib/src/io/file_page_buffer.cc:406-523 | state, queues and record after a hit or a miss; the invariant holds exactly if the page starts within the file |
| PageBuffer.FilePageBuffer.Truncate | lib/src/io/file_page_buffer.cc:751-781 | the file is resized and its frames remeasured, or the call is refused |
| PageBuffer.FilePageBuffer.ReleasePage | lib/src/io/file_page_buffer.cc:75-85 | one user less |
| PageBuffer.FilePageBuffer.Read | lib/src/io/file_page_buffer.cc:525-543 | bytes, state and record after a read |
| PageBuffer.FilePageBuffer.Append | lib/src/io/file_page_buffer.cc:588-632 | the loop of partial writes appends all bytes, and a resident last page takes its share |
| PageBuffer.FilePageBuffer.Write | lib/src/io/file_page_buffer.cc:546-580 | state, result and record after a write, on either branch |
| PageBuffer.FilePageBuffer.Flush | lib/src/io/file_page_buffer.cc:200-212 | every frame of the file is written back |
| PageBuffer.FilePageBuffer.Release | lib/src/io/file_page_buffer.cc:119-191 | the last reference writes the file back and drops it, unless it may dangle |
| PageBuffer.FilePageBuffer.OpenFile | lib/src/io/file_page_buffer.cc:216-307 | every refusal, a known file, a reopened one, and a new one under a recycled or fresh id; the invariant holds exactly if no buffered file is emptied |
| PageBuffer.FilePageBuffer.TryDropFile | lib/src/io/file_page_buffer.cc:655-668 | an unused file is dropped without a frame left; any other stays as it is |
| PageBuffer.FilePageBuffer.Perform | lib/src/io/file_page_buffer.cc:119-781 | every operation of a run is the method of that name, so the laws of runs hold of the class |
| PageSteps.NoWriteIsLost | lib/src/io/file_page_buffer.cc:309-377 | in every interleaving on all pages: a page that is not resident is on disk as last written, a reader finds what was last written, a clean page is on disk, users are pins |
| PageSteps.EraseIsSafe | lib/src/io/file_page_buffer.cc:337-371 | a frame is erased only if it is clean, the disk holds the last write and nobody else has to do with it |
| PageSteps.StepKeeps | lib/src/io/file_page_buffer.cc:406-523 | every step of every activity keeps the invariant |
| PageSteps.SourceAssertionsHold | lib/src/io/file_page_buffer.cc:344-364 | the assertions on users and states hold, and nobody meets a NEW frame |
| PageSteps.ReloadedIsNeeded | lib/src/io/file_page_buffer.cc:453-456 | without the step from EVICTING to RELOADED there is a run that loses a completed write |
| Streams.InputFileStreamBuffer.constructor | lib/include/duckdb/web/io/ifstream.h:58-67 | a new stream has the whole file ahead |
| Streams.InputFileStreamBuffer.NextPage | lib/src/io/ifstream.cc:9-20 | the next page is fixed and its readable bytes are the get area, exactly if it starts before the end of the data |
| Streams.InputFileStreamBuffer.Xsgetn | lib/src/io/ifstream.cc:22-34 | delivers a beginning of what is ahead and leaves the rest ahead; of a positioned stream as many bytes as were asked for or are there |
| Streams.InputFileStreamBuffer.XsgetnEach | lib/src/io/ifstream.cc:22-34 | any series of reads delivers what was ahead, in order, and then nothing |
| Streams.InputFileStreamBuffer.SeekPos | lib/src/io/ifstream.cc:54-61 | for any position: the data from there on is ahead, nothing if it lies past the end; or else, exactly when its page does not start before the end, what is left of the old get area |
| Streams.InputFileStreamBuffer.Slice | lib/src/io/ifstream.cc:63-78 | the range, cut off at the end of the file, is ahead, or else exactly when the old get area stays |
| Streams.InputFileStreamBuffer.SliceAndRead | lib/src/io/ifstream.cc:22-78 | a read after a slice delivers the range exactly if the range is not empty, or the file does not end on a page boundary, or the old get area was at its start or used up, or nothing was asked for; otherwise the bytes of the old get area |
| Streams.SliceBehindTheEnd | lib/src/io/ifstream.cc:63-78 | a state in which such a read delivers a stale byte |
| Streams.StaleLeft | lib/src/io/ifstream.cc:22-26 | the 64-bit difference of size and position after such a slice |
| BufferedFiles.BufferedFileHandle.ReadAt | lib/src/io/buffered_filesystem.cc:106-130 | exactly the requested bytes, or all there are and then a failure; the position follows; the loop terminates |
| BufferedFiles.BufferedFileHandle.Read | lib/src/io/buffered_filesystem.cc:155-167 | one read at the position, which moves by what was read |
| BufferedFiles.BufferedFileHandle.WriteAt | lib/src/io/buffered_filesystem.cc:132-152 | what the whole write makes of the file, for both kinds of open files |
| BufferedFiles.WriteIsExact | lib/src/io/buffered_filesystem.cc:132-152 | exactly when that puts every byte where it was asked to |
| BufferedFiles.WriteGoesOn | lib/src/io/buffered_filesystem.cc:145-150 | one round of the write loop |
| ParkingLot.AcquireMeans | lib/src/utils/parking_lot.cc:50-68 | entering a bucket: the only one of its address counts one more, no other changes |
| ParkingLot.LeaveMeans | lib/src/utils/parking_lot.cc:80-92 | leaving: one less, the last one makes the bucket inactive, no other changes |
| ParkingLot.FindIsActive | lib/src/utils/parking_lot.cc:107-109 | the list walk finds the active bucket of an address, if there is one |
| ParkingLot.BucketList.EnterBucket | lib/src/utils/parking_lot.cc:50-68 | the list surgery on entering |
| ParkingLot.BucketList.LeaveBucket | lib/src/utils/parking_lot.cc:80-92 | the list surgery on leaving |
| ParkingLot.BucketList.BucketOf | lib/src/utils/parking_lot.cc:103-118 | the bucket that is notified |
| SharedMutex.WordIsValue | lib/src/utils/shared_mutex.cc:12-18 | three bits and a count are the 64-bit word |
| SharedMutex.WordsDiffer | lib/src/utils/shared_mutex.cc:12-18 | different words are different values, so comparing values compares words |
| SharedMutex.MutualExclusion | lib/src/utils/shared_mutex.cc:28-97 | with the test on the fetched value: over all interleavings never a writer with a reader or a second writer; the reader field counts the holders and those that have yet to back out |
| SharedMutex.NoLostWakeup | lib/src/utils/shared_mutex.cc:54-97 | over all interleavings a parked thread has a writer that will find a waiting bit, or somebody already owes or makes the wakeup |
| SharedMutex.SourceAssertionsHold | lib/src/utils/shared_mutex.cc:66-97 | the assertions of both unlocks hold, and the count never spills over |
| SharedMutex.ExclusionAsWritten | lib/src/utils/shared_mutex.cc:28-41 | a run of the code as written keeps exclusion exactly if no reader's `fetch_add` comes upon a locked word |
| SharedMutex.ReaderBesideWriter | lib/src/utils/shared_mutex.cc:28-41 | a run of the code as written with a reader beside a writer |
| JsonScan.SkipValue | extensions/hash_ext/rust/src/lib.rs:47-92 | the scanner computes the specified end of a value and stays within its input |
| JsonScan.JsonFindValue | extensions/hash_ext/rust/src/lib.rs:94-148 | the search computes the specified slice; it terminates and never leaves its input |
| JsonGrammar.ValueIsSkipped | extensions/hash_ext/rust/src/lib.rs:47-92 | on every printed value of RFC 8259, at any depth, with quotes, braces and escapes in strings, followed by a delimiter, the scanner stops exactly at its end |
| JsonGrammar.ValuePasses | extensions/hash_ext/rust/src/lib.rs:60-80 | one depth counter agrees with the recursive grammar |
| JsonGrammar.ObjectIsSearched | extensions/hash_ext/rust/src/lib.rs:94-148 | on every printed object, with any white space, the search gives the first member of that raw key, or none if there is none |
| JsonGrammar.FoundAnswers | extensions/hash_ext/rust/src/lib.rs:123-143 | what the search gives for a string, a scalar, and a container |
| JsonGrammar.ContainerIsCutOff | extensions/hash_ext/rust/src/lib.rs:135-142 | of a container it gives the text up to the first delimiter after the opening bracket, never all of it |
| Fnv.MixIsBijective | extensions/hash_ext/rust/src/lib.rs:15-21 | every byte permutes the 2^64 states |
| Fnv.OneByteApart | extensions/hash_ext/rust/src/lib.rs:15-21 | inputs of one length that differ in one byte never collide in 64 bits |
| Fnv.Fnv1aFeed | extensions/hash_ext/rust/src/lib.rs:15-21 | the loop is the fold |
| Fnv.HashTwo | extensions/hash_ext/rust/src/lib.rs:23-28 | the hash of two parts is one feed of the parts with their mark |
| Fnv.PairDecodes | extensions/hash_ext/rust/src/lib.rs:23-28 | and the mark can be undone |
| Fnv.HashJson | extensions/hash_ext/rust/src/lib.rs:172-188 | the single-key hash, or none |
| Fnv.FeedField | extensions/hash_ext/rust/src/lib.rs:190-213 | one field is one feed of its frame |
| Fnv.HashJsonKeys | extensions/hash_ext/src/hash_ext_functions.cpp:378-403 | the key-list hash is one feed of the framed stream; 1 for no keys |
| Fnv.MetricHashes | extensions/hash_ext/src/hash_ext_functions.cpp:634-680 | the three hashes of a metric row; the target's is the key-list hash of parents and target |
| Fnv.StreamDecodes | extensions/hash_ext/src/hash_ext_functions.cpp:387-400 | the framing can be undone when no key or value contains a framing byte |
| Fnv.Utf8IsClean | extensions/hash_ext/rust/src/lib.rs:198-212 | no UTF-8 text contains one |
| Fnv.StreamsAgree | extensions/hash_ext/src/hash_ext_functions.cpp:378-403 | two rows of UTF-8 text feed the same stream exactly if they agree on every key |
| Fnv.RowsAgree | extensions/hash_ext/src/hash_ext_functions.cpp:378-403 | two JSON objects feed the same stream exactly if, key by key, their members both count as missing or have the same text |
| Fnv.DifferentRowsAlike | extensions/hash_ext/rust/src/lib.rs:199-203 | pairs of different rows that feed the same stream, under any key |
| Fnv.PlaceholderMeans | extensions/hash_ext/rust/src/lib.rs:199-203 | exactly which looked-up texts are hashed as the placeholder |
| Shred.CastChecksRange | lib/src/json_parser.cc:124-143 | the cast and comparison accept exactly the values in range, for every width and sign |
| ShredLaws.AppendAccepts | lib/src/json_parser.cc:262-674 | a value is appended exactly if its type accepts it, for every nested type |
| ShredDecode.ValueIsAppended | lib/src/json_parser.cc:284-674 | an appended value is one slot more, and reads back as what it means for the type |
| ShredDecode.NullIsAppended | lib/src/json_parser.cc:284-287 | an appended null is one slot more and reads as null, whatever lies under it |
| ShredParser.RoundTrip | lib/src/json_parser.cc:262-272 | for every type and all rows: taken exactly if the type accepts each, and then the columns read back as the rows, missing struct members as null |
| ShredParser.CodesAreTruncated | lib/src/json_parser.cc:644-661 | for every type code: when a pair is taken under its own code, when under another, and when the lookup leaves the table |
| ShredParser.ArrayParser.AppendValue | lib/src/json_parser.cc:262-272 | the parser object takes what its type accepts and grows by that value |
| ShredParser.ArrayParser.AppendValues | lib/src/json_parser.cc:262-272 | the loop over rows |
| ShredParser.ArrayFromJSON | lib/src/json_parser.cc:897-908 | an array exactly for rows that the type accepts, and it reads back as the rows |
| JsonInfer.ArrayIsTallied | lib/src/json_analyzer.cc:472-547 | only the elements of the array itself are counted, at whatever depth events come |
| JsonInfer.InferenceIsSound | lib/src/json_analyzer.cc:237-296 | for every array of integers and nulls: an inferred integer type accepts every element; double exactly if an element exceeds 64 bits or negatives meet an element of at least 2^63-1; null exactly if there is no number |
| JsonInfer.FlatArrayAnalyzer.Handle | lib/src/json_analyzer.cc:472-547 | one event on the counters and the depth |
| JsonInfer.InferFlatArray | lib/src/json_analyzer.cc:237-296 | the choice for an array is that of its counters |
| JsonTable.BatchIsCollected | lib/src/json_table.cc:27-145 | from any number of collected elements the loop stops with n elements, or all that are left, and no element is split |
| JsonTable.BatchesConcatenate | lib/src/json_table.cc:131-145 | batches make up the array in order; every one but the last has n elements |
| JsonReader.ArrayBuffer.Dispatch | lib/src/json_table.cc:49-106 | each event on document, depth, size and done flag |
| JsonReader.ArrayReader.ReadNextN | lib/src/json_table.cc:131-145 | the next n elements, or all that are left, or nothing after the end |
| JsonReader.ArrayReader.ReadBatches | lib/src/json_table.cc:131-145 | repeated calls give exactly these batches, which concatenate to the array |
| JsonReader.RowArrayTableReader.ReadNext | lib/src/json_table.cc:190-202 | a batch exactly if there are rows, their type takes them and none is null; it reads back as the rows |
| JsonReader.RowArrayTableReader.ReadTable | lib/src/json_table.cc:190-202 | all batches are the rows of the document, exactly if the type takes every row and none is null |
| JsonColumns.ColumnReader.ReadNextN | lib/src/json_table.cc:131-145 | one column's reader and parser take its next elements |
| JsonColumns.ColumnReader.PadAndFinish | lib/src/json_table.cc:318-325 | a column is padded with nulls and finished |
| JsonColumns.ColumnObjectTableReader.ReadNext | lib/src/json_table.cc:295-331 | a batch of every column, padded to the longest; nothing once all have ended; a failure exactly if some type does not take its elements |
| JsonColumns.ColumnObjectTableReader.ReadTable | lib/src/json_table.cc:295-331 | the batches concatenate to the columns, null-padded to the longest, exactly if the types take all elements |
| Glob.GlobToRegex | lib/src/io/glob.cc:16-124 | the loop emits the specified text for every pattern and all options |
| GlobMeaning.MeaningIsPreserved | lib/src/io/glob.cc:16-124 | without `glob_star` and backslashes: the text parses and matches a name exactly if the glob does; with `global`, exactly if the glob matches within the name |
| GlobMeaning.StarsAreOne | lib/src/io/glob.cc:84-97 | a run of stars acts as one |
| GlobGroups.MeaningOfGroups | lib/src/io/glob.cc:58-82 | the same for patterns with flat groups in extended mode |
| GlobBackslash.BackslashesAreHarmless | lib/src/io/glob.cc:112-114 | the meaning is kept exactly if every backslash stands before a slash, an equals sign, an exclamation mark or a comma |
| GlobBackslash.BackslashBeforeDot | lib/src/io/glob.cc:112-114 | one pattern of each kind |
| RegexLaws.ShortMatch | lib/src/io/glob.cc:119-123 | an expression that matches a text matches one no longer than its single characters |
| FileStats.FileStatisticsCollector.Resize | lib/src/io/file_stats.cc:30-43 | the shift is the least with at most the maximum of full blocks, the blocks cover the file with less than one to spare, there are at most maximum plus one, and counters start anew only if either changes |
| FileStats.FileStatisticsCollector.BumpCounter | lib/include/duckdb/web/io/file_stats.h:64-76 | if the collector is active, exactly the touched blocks count once more in exactly one of their six counters, up to the limit, and none lies outside; otherwise nothing changes |
| FileStats.ShiftIsUnique | lib/src/io/file_stats.cc:33-35 | there is only one such shift |
| FileStats.CountIsUnique | lib/src/io/file_stats.cc:36-37 | and one such number of blocks |
| FileStats.AsNibble | lib/src/io/file_stats.cc:17-27 | the logarithm of one more than the hits, up to fifteen |

## Left out

- PagePins.FixIsRoomy: the capacity is not kept on a hit, so the bound is stated as exactly when it holds.
- PagePins.WriteIsPositional: positional writes of files not open for appending are not promised, since the code appends.
- PageRuns.RunRefines: opens that empty a buffered file, truncations with resident pages that do not span the new end and fixes beyond the end of a file are not steps of a run, since the code is not right there; what they do is stated by `OpenKeeps`, `TruncateKeeps` and `FixBeyondTheEnd`.
- PageHistory.RunKeepsPins: runs that close the last reference to a file while a page of it is held are excluded; the source asserts that there is no such page, since a reference to a page holds the file's latch.
- PageBuffer.FilePageBuffer.ReOpen: the new handle is not an object of its own; opening a path that is buffered never fails in the file system of the model.
- PageBuffer.FilePageBuffer.TryDropFile: the loops over all files (`DropDanglingFiles`, `FlushFiles`) are left out; they add nothing to the calls they make.
- PageSteps.NoWriteIsLost: one page at a time, files are neither opened, released, appended to nor truncated, and the never-evicted RELOADED frame of line 351 is possible; deadlock and fairness are not modelled.
- Latches are in the step model only; the class is sequential.
- The file system below is not changed by anybody else, and its calls do not fail.
- Streams.InputFileStreamBuffer.NextPage: the file does not change while the stream is open; `seekoff`, `uflow` and the copying of streams are left out.
- BufferedFiles.BufferedFileHandle.WriteAt: the writes whose loop would fix a page past the end of the file are excluded; direct I/O is left out.
- SharedMutex.NoLostWakeup: `Park` without a timeout and `UnparkAll` only; sequentially consistent atomics; parking lots of other addresses share the one lot of the model.
- JsonScan.JsonFindValue: indexes are unbounded; the depth counter of the source has 32 bits, which inputs below 2^31 bytes cannot exceed.
- JsonGrammar.ObjectIsSearched: keys are compared as raw text, with no escapes undone, as the code does; a member that is an object or an array is found, but not in full.
- Fnv.HashJsonKeys: the columns and validity masks around the rows are left out, and so are the table functions other than the metric hashes.
- ShredParser.RoundTrip: floating-point numbers, decimals, timestamps, intervals, fixed-size binary and dictionaries are left out; integers have at most 64 bits.
- ShredParser.ArrayParser.AppendValue: nothing is said of the builder after a refused value; the parsers of list and map entries have appended some children by then.  Child parsers are values inside their parent.
- JsonInfer.InferenceIsSound: flat arrays only; strings, objects, arrays and booleans are counted, but the choice among samples is left out, and so is the inference for row arrays.
- JsonColumns.ColumnObjectTableReader.ReadTable: the columns are read from streams of their own, and the search for their boundaries is left out.
- JsonReader.ArrayReader.ReadNextN: malformed documents are left out: events are those of a document.
- GlobMeaning.MeaningIsPreserved: `glob_star`, character classes in extended mode and matching without regard to case are left out.
- GlobBackslash.BackslashesAreHarmless: a text with a character class, a counted repetition or an escaped letter, digit or underscore does not parse in the model, so such a pattern counts as one whose meaning is not kept.
- Regular expressions: an escaped `$` is taken for itself, though section 15.10.2.10 of ECMA-262 (3rd edition) excludes characters of identifiers there.
- FileStats.FileStatisticsCollector.BumpCounter: the range has to lie within the blocks, as the source asserts; the byte totals do not wrap around.
- HTTP clients, the browser runtime, the query engine interface and the user interfaces.
