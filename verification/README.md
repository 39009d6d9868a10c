# Llamaste: verified models of eight components

Llamaste is an operating system around a language model: an init process, a web server on a vendored
cpp-httplib, an agent loop, a cluster of nodes and a login. This project models the parts of it that
hold real state or undo one another, in Dafny, and proves what they are for.

Verify everything with `dafny verify dfyconfig.toml`.

| file | what it models |
|---|---|
| `ThreadPool.dfy` | the worker pool: critical sections as methods of a class, and a state machine over every interleaving of them with notifications, spurious wakeups and running jobs |
| `Chunked.dfy` | the chunked transfer coding of section 7.1 of RFC 9112: sink over a connection that may stop accepting, line reader with two buffers, reader over short reads and broken connections |
| `Multipart.dfy`, `MultipartProofs.dfy`, `MultipartItems.dfy`, `MultipartLimits.dfy`, `MultipartEpilogue.dfy`, `MultipartFields.dfy` | the incremental multipart/form-data parser over its sliding buffer (section 5.1.1 of RFC 2046, RFC 7578), streaming against one search over the whole input, the serialiser it undoes, its header length limit, what may follow a message, and the fields of a header |
| `Ranges.dfy`, `ByteRanges.dfy` | the Range pipeline of section 14.2 of RFC 9110: print, parse, normalise in place, slice, announce; and the multipart/byteranges body read back |
| `Crc32.dfy`, `Gpt.dfy`, `GptPlan.dfy`, `GptSafety.dfy` | the CRC-32 of section 8.1.1.6.2 of ITU-T V.42, the growing of the last GPT partition (section 5.3 of the UEFI Specification), when it is done and what it changes, and what is on the disk wherever it stops |
| `Election.dfy` | coordinator election across nodes |
| `Blowfish.dfy`, `Bcrypt.dfy`, `BcryptKeys.dfy` | the cipher, its two key schedules, the base-64 codec and the hash/check pair (Provos and Mazières 1999), and which passwords they tell apart |
| `CpuList.dfy` | the run-compressed CPU list |
| `ToolCalls.dfy`, `Conversation.dfy`, `AgentTurns.dfy` | the two tag scanners and the printer they undo; the conversation, its truncation and the agent loop; a turn as a transcript |
| `Auth.dfy`, `Limiter.dfy` | the session table, its background sweep, and the login limiter with several workers |
| `Search.dfy`, `Decimal.dfy`, `Separators.dfy`, `Splitting.dfy`, `Octets.dfy`, `Http.dfy`, `Wrappers.dfy` | first-occurrence search, decimal text, separators, splitting and trimming, octets as numbers and as bit-vectors, two constants, optional values, shared by the others |

Each object whose methods update its fields is a class; each of its methods is proved against a function
on values (`Parse` against `Parsed`, `AgentTurn` against `TurnFrom`), and the properties are lemmas about
those functions, so they hold of the methods. Octets of the web server and of model output are
characters; octets of the disk and of bcrypt are numbers or bit-vectors. Clocks, random bytes, network
input, the device's willingness to write, the model's answers and the tools' results are parameters.

Where the code does not do what a reader would hope for, the model keeps the code and the lemma says
exactly when it does:

- Chunked pieces come back if and only if no provider call before the one that is done ends with an empty
  write (`Chunked.RoundTrip`); otherwise the terminating chunk is missing, and the writer still reports
  success (`Chunked.EmptyWriteCutsOff`).
- An opening multipart boundary split over two calls is lost (`MultipartItems.SplitOpeningLost`). Serialised
  items come back from all other splits if and only if no content contains the delimiter
  (`MultipartItems.RoundTripExactlyIf`).
- A call after the closing delimiter is looked at again, and one that looks like a part is taken for one
  (`MultipartItems.PhantomPart`). An epilogue changes nothing in whatever calls it comes if and only if there
  is no line end at its beginning, nor anywhere behind two dashes at its beginning, or only text behind it
  that is neither refused nor completes a part (`MultipartEpilogue.IgnoredExactlyIf`).
- Name and filename of an item are written as they are, and come back if and only if they contain no semicolon,
  equality sign or line end (`MultipartFields.FieldsExactlyIf`).
- The length limit is checked when a call enters the header state, so how the calls split a header matters,
  unless every line is below the limit or the first one above it (`MultipartLimits.SplitsAgreeExactlyIf`).
- A ranged request answered by a content provider with a 2xx status other than 206 announces the whole
  length and sends the ranges; the two lengths agree exactly when one range is the whole content, or the
  parts of several happen to add up to its length. Outside 2xx the ranges are not checked either: an
  assertion then fails exactly when one of them lacks an end or is not inside the content (`Ranges.Respond`).
- The range check uses `content_length_` when it is set while the slicing uses the body, which is safe only if
  the former is not larger (`Ranges.CheckedForUsed`).
- A GPT header whose stored size is above the structure's own 92 octets gets a checksum over the memory behind
  it. On the disk it checks out if and only if the difference between that memory and the rest of the sector
  leaves no CRC remainder (`GptSafety.PrimaryDoneValid`, `GptSafety.FinishedStable`); for sizes up to 96, and for
  differences within 32 consecutive bits, that is if and only if they are the same (`GptSafety.LongHeader`,
  `GptSafety.NeitherPairVerifies`). The old backup verifies in any case (`GptSafety.OldBackupStays`).
- A partition array that is longer than the sectors for its backup is cut at the end of the disk, and the
  backup pair is lost (`GptSafety.LongTableLosesBackup`); `GptSafety.FinishedBackup` says exactly when it is not.
- A job accepted after every worker has left never runs (`ThreadPool.AllRunExactlyUnlessStranded`,
  `ThreadPool.StrandedJob`); the accept loop's discipline excludes it.
- A CPU list does not come back if a number is negative or if the two largest ints are both in it, where
  the parser's loop counter would overflow (`CpuList.RoundTrip`).
- bcrypt passwords are confused exactly if the 72 octets are the same that are read from the password and its
  terminator, repeated without end (`BcryptKeys.ScheduleExactlyIf`, `BcryptKeys.SameStreamSameHash`). Without
  zeros in them, that is if and only if they are equal or share 72 octets (`BcryptKeys.StreamsOfText`); with
  zeros, short ones are confused as well (`BcryptKeys.ShortPasswordsCollide`).
- `bcrypt_check` compares the digits up to the first terminator of the text, or its end
  (`Bcrypt.CheckExactly`). A text that has lost its last character is compared up to 30 of 31 digits
  (`Bcrypt.ShortenedHash`), and one with a terminator in front of them accepts every password but the empty one
  (`Bcrypt.NoDigitsAcceptAll`).
- A printed tool call whose body contains the closing tag is not read back (`ToolCalls.PrintedBodiesFound`).
- A tool dispatch that throws leaves a request with too few results in the conversation; turns keep the
  pairing if and only if no dispatch can throw (`Conversation.PairingKeptExactlyIf`). `dispatch` throws only
  if the report of a failure cannot itself be dumped as JSON.
- The login limiter checks before the password is verified, and the time of a failure is read before the
  mutex is taken, so readings can be recorded in another order than they were taken. With n workers, a
  window shorter than the cooldown holds at most Reach(n) = n(n + 9)/2 failures of one address
  (`Limiter.FailuresBounded`), and MAX_FAILURES - 1 + n if readings are recorded in order
  (`Limiter.OrderedBounded`). Both bounds are reached (`Limiter.BoundReached`, `Limiter.OrderedReached`); with
  one worker both are the limit itself.
- `is_authenticated` reads the clock once to check and once to touch, and a session can expire and be swept
  in between, which can be told (`Auth.SplitCheckReveals`). Sweeps cannot be told if and only if every touch
  meets a session that is unexpired or absent at that time (`Auth.UnobservableExactlyIf`), as long as no
  failure is recorded more than nine cooldowns after its time was read (`Auth.LatenessExactly`).

## Model

| member | source | states |
|---|---|---|
| `ThreadPool.JobQueue.Enqueue` | src/llamaste/httplib.h:765-776 | the critical section of enqueue: accepted exactly when there is no bound or fewer jobs than that are waiting, and then the last one; refused, nothing changes |
| `ThreadPool.JobQueue.Shutdown` | src/llamaste/httplib.h:778-783 | the critical section of shutdown sets the flag and nothing else |
| `ThreadPool.JobQueue.Serve` | src/llamaste/httplib.h:801-810 | a worker's pass from the wait predicate to the unlock: without jobs it sleeps, or leaves after shutdown; with jobs it takes the first |
| `ThreadPool.TakenInOrderExactlyOnce` | src/llamaste/httplib.h:765-814 | in every interleaving accepted jobs are taken in FIFO order, each taken job is with exactly one worker or done, and a positive bound is never exceeded |
| `ThreadPool.AcceptedExactlyIf` | src/llamaste/httplib.h:765-776 | after every run, a request is accepted if and only if there is no bound or fewer jobs than that have been accepted and not taken |
| `ThreadPool.UnboundedAcceptsAll` | src/llamaste/httplib.h:754 | without a bound, which is the default, the accepted jobs are those of all requests, in order |
| `ThreadPool.OneNotificationEach` | src/llamaste/httplib.h:773-774 | each accepted job brings exactly one notify_one |
| `ThreadPool.NoLostWakeup` | src/llamaste/httplib.h:765-810 | with both notifications outside the mutex: a non-empty queue always has somebody awake or a notification to come, unless all have left; after notify_all nobody sleeps |
| `ThreadPool.AllRunExactlyUnlessStranded` | src/llamaste/httplib.h:798-814 | once every worker has left, all accepted jobs have run if and only if none was accepted after the last one left |
| `ThreadPool.StrandedJob` | src/llamaste/httplib.h:765-776 | a run in which a job is accepted after the only worker has left, and never runs |
| `ThreadPool.AllRunUnderDiscipline` | src/llamaste/httplib.h:6742-6821 | with no enqueue after shutdown, as in the accept loop, every accepted job has run when the workers are gone |
| `ThreadPool.ShutdownDrains` | src/llamaste/httplib.h:778-814 | after shutdown a run without new requests is bounded, and where it cannot go on all workers have left: the joins return |
| `Decimal.StoPrint` | src/llamaste/cpu_topology.h:49-53 | reading a printed number gives it back if it is in range and throws otherwise |
| `Decimal.StoIs` | src/llamaste/cpu_topology.h:49-53 | the stoi family on spaces, a sign or none, digits or none, and whatever follows: the value if it is in range, an exception otherwise |
| `Decimal.PrintCanonical` | src/llamaste/cpu_topology.h:67-80 | a printed number has no leading zero |
| `Chunked.FromIToHex` | src/llamaste/httplib.h:2550-2558 | the digits of the size, most significant first, one zero for zero |
| `Chunked.DigitsAre` | src/llamaste/httplib.h:2550-2558 | lower-case digits are printed, either case is read, each with its value |
| `Chunked.StrtoulIs` | src/llamaste/httplib.h:4269 | strtoul in base 16 on spaces, a sign or none, 0x or not, digits or none, and whatever follows, such as a chunk extension: saturated, negated modulo 2^64, or no number |
| `Chunked.StrtoulHex` | src/llamaste/httplib.h:4269 | in particular it reads a printed size line back |
| `Chunked.Stream.Read` | src/llamaste/httplib.h:2894-2904 | a stream may return any non-empty prefix that fits; behind the data it ends or fails |
| `Chunked.LineReader.Append` | src/llamaste/httplib.h:2919-2930 | the line grows by one character, whichever of the two buffers holds it |
| `Chunked.LineReader.GetLine` | src/llamaste/httplib.h:2884-2917 | the buffers hold the input up to and with its first CRLF, of any length, and the stream the rest; at the end of input an unfinished line counts, on a broken connection it does not |
| `Chunked.ReadContentWithLength` | src/llamaste/httplib.h:4207-4227 | delivers exactly that many octets, or all there are and an error, whatever short reads the stream returns |
| `Chunked.ReadContentChunked` | src/llamaste/httplib.h:4255-4319 | success, content and remaining input are those of the decoding function, with every refusal of the code |
| `Chunked.ChunkedSink.Write` | src/llamaste/httplib.h:4544-4569 | emits one chunk for a non-empty piece as far as the connection accepts it, nothing for an empty one; nothing more once a write has failed |
| `Chunked.ChunkedSink.Done` | src/llamaste/httplib.h:4573-4617 | emits the terminating chunk and the empty line as far as the connection accepts them |
| `Chunked.WriteContentChunked` | src/llamaste/httplib.h:4532-4635 | what was sent is the first octets the connection takes of what the provider produces, and success is reported exactly if that is all of it and no call refused |
| `Chunked.RefusalReported` | src/llamaste/httplib.h:4532-4635 | a provider that refuses ends the loop, and the refusal is reported |
| `Chunked.DecodeChunk` | src/llamaste/httplib.h:4265-4285 | one emitted chunk is read as its payload, then reading goes on behind it |
| `Chunked.TrailersSkipped` | src/llamaste/httplib.h:4290-4316 | behind the last chunk, trailer lines are read over up to the empty one; without it the body is refused, but for nothing at all behind the chunk |
| `Chunked.LongTrailerRefused` | src/llamaste/httplib.h:4295 | a trailer line above the limit is refused |
| `Chunked.RoundTrip` | src/llamaste/httplib.h:4255-4319 | for pieces of any kind written in whatever calls, decoding what was emitted gives their concatenation and leaves what follows in the stream, if and only if no call before the one that is done ends with an empty write |
| `Chunked.EmptyWriteCutsOff` | src/llamaste/httplib.h:4546 | a call that ends with an empty write before done: the writer reports success, the reader refuses what it emitted and has got the pieces up to there |
| `Multipart.MultipartFormDataParser.BufFind` | src/llamaste/httplib.h:4998-5019 | the first occurrence in the live part of the buffer, its length when there is none |
| `Multipart.MultipartFormDataParser.BufStartWith` | src/llamaste/httplib.h:4979-4996 | whether the pattern occurs at that place of the live buffer |
| `Multipart.MultipartFormDataParser.Compact` | src/llamaste/httplib.h:5022-5029 | the live part moves to the front in place, unchanged |
| `Multipart.MultipartFormDataParser.BufAppend` | src/llamaste/httplib.h:5021-5037 | the live part grows by the data, whatever the buffer held outside it |
| `Multipart.MultipartFormDataParser.InitialBoundary` | src/llamaste/httplib.h:4820-4827 | the case for state 0, as a step on values |
| `Multipart.MultipartFormDataParser.Headers` | src/llamaste/httplib.h:4833-4903 | the header loop, with the length test only on entry |
| `Multipart.MultipartFormDataParser.Body` | src/llamaste/httplib.h:4904-4926 | hands out content up to the delimiter, or all that cannot be the beginning of one |
| `Multipart.MultipartFormDataParser.Boundary` | src/llamaste/httplib.h:4927-4943 | CRLF for another part, two dashes for the end, anything else waits |
| `Multipart.MultipartFormDataParser.Parse` | src/llamaste/httplib.h:4813-4948 | one call takes the parser from its configuration with the data appended to the one the function gives |
| `MultipartProofs.ParsedIsBatch` | src/llamaste/httplib.h:4904-4924 | one call is one search over what there is, up to content handed out early |
| `MultipartProofs.BatchPlus` | src/llamaste/httplib.h:4813-4948 | searching again with more input gives what one search over all of it gives |
| `MultipartProofs.FeedIsBatch` | src/llamaste/httplib.h:4813-4948 | parts, header lines, state and leftover input after any number of calls depend only on the concatenated input |
| `MultipartProofs.BodyDelivered` | src/llamaste/httplib.h:4904-4926 | from body state, what all calls hand out concatenates to the input before the first delimiter |
| `MultipartLimits.SplitsAgreeExactlyIf` | src/llamaste/httplib.h:4833-4901 | for accepted header lines: every split of a part's header into calls gives the same result if and only if every line is shorter than the limit or the first one is longer |
| `MultipartLimits.LongRefused` | src/llamaste/httplib.h:4834-4835 | a first line above the limit is refused in whatever pieces it comes |
| `MultipartItems.SerializeItemBegin` | src/llamaste/httplib.h:5084-5100 | the opening delimiter and the header lines of an item |
| `MultipartItems.SerializeMultipartFormdata` | src/llamaste/httplib.h:5114-5127 | all items, and the closing delimiter if asked for |
| `MultipartItems.PartsFound` | src/llamaste/httplib.h:4833-4943 | a search over a message of several parts finds their header lines and contents in order |
| `MultipartItems.MessageFed` | src/llamaste/httplib.h:4813-4948 | a message of several parts comes back with the same header lines and contents, in order, from any split whose first call brings the opening boundary |
| `MultipartItems.RoundTrip` | src/llamaste/httplib.h:5114-5127 | so do serialised items |
| `MultipartItems.RoundTripExactlyIf` | src/llamaste/httplib.h:5114-5127 | they come back from every such split if and only if no content contains the delimiter |
| `MultipartItems.OpeningNotKept` | src/llamaste/httplib.h:4821-4822 | a first call leaves the parser with nothing kept if and only if it lacks the whole opening boundary |
| `MultipartItems.SplitOpeningLost` | src/llamaste/httplib.h:4821-4822 | wherever the opening boundary is split over two calls, it is lost |
| `MultipartItems.EpilogueIgnored` | src/llamaste/httplib.h:4927-4941 | after the closing delimiter a call is ignored if and only if it brings nothing or two dashes first |
| `MultipartItems.PhantomPart` | src/llamaste/httplib.h:4929-4931 | a later call that looks like a part adds one to a message that has ended |
| `MultipartEpilogue.IgnoredExactlyIf` | src/llamaste/httplib.h:4813-4943 | for every epilogue: whatever calls it comes in, the message stays valid with the same parts, if and only if wherever a call may begin to look at it there is no line end, or behind it only text that no split gets refused or makes a part of |
| `MultipartEpilogue.PlainEpilogues` | src/llamaste/httplib.h:4927-4941 | one line end is such an epilogue, and any text without line ends, also behind two dashes |
| `MultipartFields.ReadParam` | src/llamaste/httplib.h:4734-4742 | key and value of one parameter: the first piece around equality signs and the last one behind it |
| `MultipartFields.ParseDispositionParams` | src/llamaste/httplib.h:4726-4749 | the parameters of a disposition, each text once |
| `MultipartFields.StartsWithIs` | src/llamaste/httplib.h:4957-4966 | field names are compared without regard to case |
| `MultipartFields.FieldsExactlyIf` | src/llamaste/httplib.h:4858-4898 | name, filename and type of a serialised item are read back if and only if neither name nor filename contains a semicolon, an equality sign or a line end and the type has no blanks around it |
| `Ranges.MakeRangeHeader` | src/llamaste/httplib.h:5644-5656 | the header text of a list of ranges |
| `Splitting.TrimBounds` | src/llamaste/httplib.h:2787-2796 | the bounds enclose the piece without its blanks, or cross when nothing is left |
| `Splitting.Split` | src/llamaste/httplib.h:2836-2856 | the trimmed non-empty pieces between separators |
| `Splitting.TrimIs` | src/llamaste/httplib.h:2787-2802 | trimming takes away the blanks on both sides and nothing else |
| `Splitting.BlankPieceDropped` | src/llamaste/httplib.h:2846-2856 | a piece between separators that is blank is dropped |
| `Ranges.ParseRangeHeader` | src/llamaste/httplib.h:4753-4798 | the ranges of a header, or a refusal, as the parsing function gives it |
| `Ranges.ParseRangeText` | src/llamaste/httplib.h:4767-4790 | parsing undoes the printing of exactly the ranges it accepts and refuses all others |
| `Ranges.HeaderRoundTrip` | src/llamaste/httplib.h:5644-5656 | a printed header parses back to the same ranges if and only if there are some and all are ranges |
| `Ranges.RequestTexts` | src/llamaste/httplib.h:4762-4798 | the three forms of a range in a request, as texts: the last n octets, from a on, from a to b |
| `Ranges.NormalizeAt` | src/llamaste/httplib.h:5145-5159 | one range is completed in place through references, the others stay |
| `Ranges.NormalizedAsks` | src/llamaste/httplib.h:5145-5164 | normalising a range leaves it inside the content if and only if it asks for octets that are there, and its slice is then exactly these: the last n, those from a on, or those from a to b |
| `Ranges.RangeError` | src/llamaste/httplib.h:5129-5182 | on 2xx: an error if and only if there are too many ranges or the normalised ones are not inside the content, strictly ascending and with at most two overlaps; otherwise they are left normalised |
| `Ranges.MakeMultipartRangesData` | src/llamaste/httplib.h:5245-5259 | the multipart/byteranges body of the slices |
| `Ranges.GetMultipartRangesDataLength` | src/llamaste/httplib.h:5261-5277 | the length added up without writing is that of the body, for any content of that length |
| `Ranges.ApplyRanges` | src/llamaste/httplib.h:6919-7022 | the announced length and the new body: the content, its one slice, or the multipart of all slices, with a boundary and a type of the parts only for several ranges and status 206 |
| `Ranges.WriteContentWithProvider` | src/llamaste/httplib.h:6488-6511 | what a provider sends, without a look at the status; an assertion fails exactly if a range is not inside the content |
| `Ranges.Respond` | src/llamaste/httplib.h:6937-7021 | for every status: whenever the check passes on 2xx, all later assertions hold, and for a provider outside 2xx exactly if the ranges as given lie inside the content; the announced length is that of what is sent, for status 206, for no ranges and for bodies; for a provider with another status, exactly when one range is the whole content or the parts of several add up to its length |
| `Ranges.Serve` | src/llamaste/httplib.h:7105-7170 | from the Range field to the octets sent: 206 with exactly the octets that the request asks for, and their number announced, or 416 with nothing; without the field all of the content |
| `ByteRanges.SlicesReadBack` | src/llamaste/httplib.h:5201-5259 | a multipart/byteranges body is a multipart message: its parser gets from it each slice, with type, place and whole length in front, however the body is split |
| `Ranges.MultipartLengthIs` | src/llamaste/httplib.h:5261-5277 | the length of a multipart/byteranges body follows from the ranges and the lengths of its texts alone |
| `Ranges.CheckedForUsed` | src/llamaste/httplib.h:5131-5132 | ranges accepted for one length lie inside another exactly when the first is not larger |
| `Crc32.Crc32Gpt` | src/llamaste/init.cpp:65-73 | the two loops compute the checksum function |
| `Crc32.CheckValue` | src/llamaste/init.cpp:65-73 | the checksum of "123456789" is the check value of this CRC |
| `Crc32.UpdateIsSerial` | src/llamaste/init.cpp:67-71 | the octet loop is the serial register fed with the message bits one at a time |
| `Crc32.DetectsBursts` | src/llamaste/init.cpp:65-73 | messages of the same length whose bits differ only within 32 consecutive ones have different checksums |
| `Crc32.DetectsFourOctets` | src/llamaste/init.cpp:65-73 | so do those that differ only within four consecutive octets |
| `Crc32.UndetectedExactlyIf` | src/llamaste/init.cpp:65-73 | replacing part of a message by another of the same length leaves the checksum exactly if their difference leaves no remainder in a register that starts with zero |
| `Crc32.GeneratorUndetected` | src/llamaste/init.cpp:70 | 33 consecutive bits that differ by the polynomial itself are not noticed |
| `Gpt.NumLe` | src/llamaste/init.cpp:39-63 | a number stored little-endian in its field loads back |
| `Gpt.StoreLoad` | src/llamaste/init.cpp:39-63 | storing a field changes that field and no other |
| `GptPlan.HeaderPacked` | src/llamaste/init.cpp:38-53 | each header field is right behind the one before, and all of them are 92 octets |
| `GptPlan.EntryPacked` | src/llamaste/init.cpp:55-62 | type, own GUID, first and last block of an entry, one behind the other |
| `Gpt.SealFields` | src/llamaste/init.cpp:253-254 | recomputing the header checksum changes that field only and makes it match, over the header and the memory behind it |
| `Gpt.FindBeyond` | src/llamaste/init.cpp:214-224 | whether another entry, used or not, ends beyond the target |
| `Gpt.EditTable` | src/llamaste/init.cpp:158-254 | header and table are read and checked, and the edited copies planned, with every refusal of the code |
| `GptPlan.GrowsExactlyIf` | src/llamaste/init.cpp:147-242 | the partition is grown if and only if the disk is large enough, the signature is there, the entry exists, is used and no other ends beyond it, the array can be read, and there are 4096 sectors to gain |
| `GptPlan.TableOctets` | src/llamaste/init.cpp:244-245 | of the table only the last block of that entry changes |
| `Gpt.EditHeaders` | src/llamaste/init.cpp:247-278 | the new primary and backup headers from the old one |
| `GptPlan.PrimaryOctets` | src/llamaste/init.cpp:247-254 | of the primary header only both checksums, the other block and the last usable block change |
| `GptPlan.BackupOctets` | src/llamaste/init.cpp:273-278 | the backup differs from it in checksum, both blocks and the place of the array only |
| `Gpt.Pwrite` | src/llamaste/init.cpp:259-260 | as much of the data as the device takes is on the disk at its place, and nothing else has changed |
| `GptPlan.IncompleteStops` | src/llamaste/init.cpp:263-267 | without a complete primary pair the backup is not touched |
| `Gpt.GrowGptPartition` | src/llamaste/init.cpp:127-284 | the disk after the four writes in their order, the last two only after complete first two |
| `Gpt.SetLastGrows` | src/llamaste/init.cpp:213-245 | growing the last entry keeps used entries disjoint and all others the same octet for octet |
| `Gpt.GrowthKeepsLayout` | src/llamaste/init.cpp:213-245 | the target keeps its start, gains at least 4096 sectors and ends right before the backup array |
| `Gpt.MemoryIrrelevant` | src/llamaste/init.cpp:253-278 | with a stored header size of at most 92 octets the plan does not depend on other memory |
| `GptSafety.PlannedHeaders` | src/llamaste/init.cpp:247-278 | what both planned headers say of themselves, their arrays and each other, and over which memory they are summed |
| `GptSafety.PrimaryDoneValid` | src/llamaste/init.cpp:258-267 | after the first two writes the primary pair verifies if and only if the memory behind the header and the rest of its sector leave the same checksum |
| `GptSafety.SaneIsSound` | src/llamaste/init.cpp:253-254 | which they do for every header no longer than the structure |
| `GptSafety.CrashSafe` | src/llamaste/init.cpp:251-284 | in any torn state of the first two writes the old backup pair verifies; once they are complete the new primary does, in any torn state of the other two |
| `GptSafety.RunLeavesValidPair` | src/llamaste/init.cpp:251-284 | a run leaves a header and array pair that verifies, however much of each write the device takes |
| `GptSafety.OldBackupStays` | src/llamaste/init.cpp:258-279 | the old backup pair, away from the last 33 sectors, verifies after every run, whatever lies in memory |
| `GptSafety.FullRunFinishes` | src/llamaste/init.cpp:258-284 | a device that takes everything it has room for leaves the finished disk |
| `GptSafety.FinishedBackup` | src/llamaste/init.cpp:269-279 | for arrays of any length: the backup pair verifies if and only if its memory was harmless, its array fits on the disk and the header written over the end of it, if any, is not noticed |
| `GptSafety.FinishedStable` | src/llamaste/init.cpp:251-284 | after all writes each pair verifies if and only if the memory behind its header was harmless, both carry the same array, and a second run does nothing |
| `GptSafety.LongTableLosesBackup` | src/llamaste/init.cpp:269-271 | an array that does not fit behind its place loses the backup pair |
| `GptSafety.LargerDisk` | src/llamaste/init.cpp:228-284 | a grown disk copied to a larger one meets every condition of the next growth and of its crash safety, whatever lies in memory then: each growth leaves the backup that the next one falls back on |
| `GptSafety.LongHeader` | src/llamaste/init.cpp:253-278 | after a complete run, for stored sizes up to 96 and for any up to 512 if memory and disk differ within 32 consecutive bits only: each pair verifies if and only if the memory behind its header holds what its sector holds; above 512 neither does |
| `GptSafety.GrowableDisk` | src/llamaste/init.cpp:158-242 | there are disks that the code grows, with any stored header size up to 512 |
| `GptSafety.NeitherPairVerifies` | src/llamaste/init.cpp:253-278 | a disk with stored header size 93 where one octet of memory leaves neither new pair valid |
| `GptSafety.DifferentButSound` | src/llamaste/init.cpp:253-254 | a disk with stored header size 97 where the memory differs from the sector and the primary pair verifies all the same |
| `Election.ElectCoordinator` | src/llamaste/cluster.cpp:14-27 | the loop returns the winner of the fold |
| `Election.ScoreIs` | src/llamaste/cluster.cpp:10-12 | the score is ten for each whole GiB and one for each core, as a 32-bit int |
| `Election.LessIs` | src/llamaste/cluster.cpp:21-22 | addresses are compared at the first place where they differ |
| `Election.WinnerUnbeaten` | src/llamaste/cluster.cpp:10-27 | the winner is a candidate, and no candidate has a higher score or the same score and a smaller address |
| `Election.OrderIrrelevant` | src/llamaste/cluster.cpp:14-27 | with distinct addresses the winner does not depend on the order of the list or on who asks |
| `Election.ClusterManager.AddPeer` | src/llamaste/cluster.cpp:34-47 | replaces the first record of that peer or appends one, with the time of the call |
| `Election.AddToIs` | src/llamaste/cluster.cpp:34-47 | a known peer keeps its place, a new one goes to the end |
| `Election.ClusterManager.ExpirePeers` | src/llamaste/cluster.cpp:49-73 | keeps exactly the records younger than the timeout, in order, and notifies when one went |
| `Election.RecentIs` | src/llamaste/cluster.cpp:55-58 | recent is less than that many whole seconds ago |
| `Election.KeepRecentIs` | src/llamaste/cluster.cpp:49-73 | all recent records are kept, in order, and no other |
| `Election.ClusterManager.RunElection` | src/llamaste/cluster.cpp:75-97 | coordinator and state after an election, and a notification when the state changed |
| `Election.ElectionLeads` | src/llamaste/cluster.cpp:79-89 | an election among truthful records finds the leader of the node and those it knows |
| `Election.Agreement` | src/llamaste/cluster.cpp:34-97 | in every run, once each node's last election saw all others, exactly one node is COORDINATOR and all others are WORKERs naming it |
| `Election.TwoNodesMeet` | src/llamaste/cluster.cpp:34-97 | any two nodes with different addresses that find each other and hold elections come to that |
| `Election.CoordinatorExactlyIf` | src/llamaste/cluster.cpp:75-89 | in every run a node is COORDINATOR if and only if it polled somebody and is better than all it polled |
| `Blowfish.BfState.Encrypt` | src/llamaste/bcrypt.cpp:332-344 | the two-rounds-a-turn loop is the textbook network of sixteen rounds that swap each time |
| `Blowfish.RoundFunctionIs` | src/llamaste/bcrypt.cpp:327-330 | the round function looks up each octet of the word in its box and mixes the four words |
| `Blowfish.StoreInOrder` | src/llamaste/bcrypt.cpp:377-394 | subkeys and boxes are refilled in order, as one sequence of words |
| `Blowfish.DecryptEncrypt` | src/llamaste/bcrypt.cpp:332-344 | the cipher with reversed subkeys undoes it, for all subkeys and boxes |
| `Blowfish.Bijection` | src/llamaste/bcrypt.cpp:332-344 | the cipher is a bijection on pairs of words |
| `Blowfish.StreamWord` | src/llamaste/bcrypt.cpp:353-360 | the k-th word read is octets 4k to 4k + 3 of the data repeated without end |
| `Blowfish.BfState.MixKey` | src/llamaste/bcrypt.cpp:372-374 | every subkey is mixed with its key word |
| `Blowfish.BfState.StorePair` | src/llamaste/bcrypt.cpp:381-392 | the k-th pair of words goes to the subkeys first, then to the boxes |
| `Blowfish.BfState.SaltedTurn` | src/llamaste/bcrypt.cpp:377-394 | one turn of either loop, with the salt index running on from one to the other |
| `Blowfish.BfState.ExpandKey` | src/llamaste/bcrypt.cpp:365-395 | the salted schedule: 521 pairs, each encrypted from the one before with the next two salt words |
| `Blowfish.BfState.ExpandKeyNoSalt` | src/llamaste/bcrypt.cpp:397-418 | the schedule without salt |
| `Blowfish.NoSaltIsZeroSalt` | src/llamaste/bcrypt.cpp:365-418 | it leaves the same words as the salted schedule with a salt of zeros, for every state and key |
| `Bcrypt.Base64Encode` | src/llamaste/bcrypt.cpp:421-441 | the digits of the octets, three to four, with short last groups |
| `Bcrypt.AlphabetOrder` | src/llamaste/bcrypt.cpp:297-319 | dot, slash, upper case, lower case, digits, each in order; nothing else has a value |
| `Bcrypt.Base64Decode` | src/llamaste/bcrypt.cpp:444-462 | up to that many octets, with every way the loop stops |
| `Bcrypt.DecodeEncode` | src/llamaste/bcrypt.cpp:421-462 | decoding as many octets as were encoded gives them back, whatever text follows |
| `Bcrypt.EncodedInjective` | src/llamaste/bcrypt.cpp:421-441 | texts of equally many octets are the same only if the octets are |
| `Bcrypt.EncodedLength` | src/llamaste/bcrypt.cpp:529-536 | n octets give 4n/3 digits rounded up, none of them a terminator: 22 for the salt, 31 for the digest |
| `Bcrypt.ComputeDigest` | src/llamaste/bcrypt.cpp:493-527 | key, schedules and repeated encryption compute the digest function, with 1 << work_factor turns of the expensive schedule |
| `Bcrypt.RoundsShifted` | src/llamaste/bcrypt.cpp:505 | two to the power of the work factor is what the shift gives |
| `Bcrypt.NextFactorTwice` | src/llamaste/bcrypt.cpp:505-509 | one more in the work factor is the whole expensive setup twice |
| `Bcrypt.DigestIs` | src/llamaste/bcrypt.cpp:493-527 | the digest is the paper's: a salted schedule, that many times the schedules of key and salt with a salt of zeros, and 64 encryptions |
| `Bcrypt.MagicText` | src/llamaste/bcrypt.cpp:480-483 | what is encrypted is the text of the paper |
| `Bcrypt.WordOctetsAre` | src/llamaste/bcrypt.cpp:519-526 | words are written big-endian |
| `Bcrypt.BcryptHash` | src/llamaste/bcrypt.cpp:484-542 | the text with clamped work factor, salt and digest; empty for an empty password |
| `Bcrypt.HashShape` | src/llamaste/bcrypt.cpp:484-542 | version, work factor brought into 4 to 31, 22 digits of salt, 31 of digest; nothing for an empty password |
| `Bcrypt.Compare` | src/llamaste/bcrypt.cpp:594-600 | the collecting loop answers whether the digits agree up to where one text ends |
| `Bcrypt.BcryptCheck` | src/llamaste/bcrypt.cpp:544-601 | the answer of the checking function, with every refusal of the code |
| `Bcrypt.CheckHash` | src/llamaste/bcrypt.cpp:544-601 | a password is accepted against the hash of another if and only if it is not empty and their 23 digest octets are equal |
| `Bcrypt.OwnPasswordAccepted` | src/llamaste/bcrypt.cpp:484-601 | for every non-empty password, salt and work factor the check accepts the hash |
| `Bcrypt.CheckExactly` | src/llamaste/bcrypt.cpp:544-601 | any parsed text: accepted if and only if the password is not empty and the digits agree before the first terminator behind the salt, or the end, up to 31 |
| `Bcrypt.ParsedIs` | src/llamaste/bcrypt.cpp:546-552 | the texts that are parsed: length, dollar signs, version, and a work factor from 4 to 31 |
| `Bcrypt.SaltIs` | src/llamaste/bcrypt.cpp:554-556 | what is not decoded of the salt is what the buffer held before |
| `Bcrypt.ShortenedHash` | src/llamaste/bcrypt.cpp:546 | a hash without its last character is accepted if and only if the first 30 digits of the digests agree |
| `Bcrypt.NoDigitsAcceptAll` | src/llamaste/bcrypt.cpp:596-598 | a terminator in front of the digits: every password but the empty one is accepted |
| `BcryptKeys.SameMixed` | src/llamaste/bcrypt.cpp:371-374 | two passwords mixed into the same subkeys give the same subkeys if and only if their 72-octet streams are the same |
| `BcryptKeys.ScheduleExactlyIf` | src/llamaste/bcrypt.cpp:365-418 | for all tables and salts, either key schedule leaves the same state if and only if the streams are the same |
| `BcryptKeys.SameStreamSameHash` | src/llamaste/bcrypt.cpp:484-601 | passwords with the same stream have the same hash and pass the same checks |
| `BcryptKeys.StreamsOfText` | src/llamaste/bcrypt.cpp:494-497 | passwords without zeros have the same stream if and only if they are equal or share 72 octets |
| `BcryptKeys.LongPasswordsCollide` | src/llamaste/bcrypt.cpp:494-497 | passwords that share 72 octets have the same hash, zeros or not |
| `BcryptKeys.ShortPasswordsCollide` | src/llamaste/bcrypt.cpp:353-360 | a password and the one that repeats it behind a zero have the same hash |
| `CpuList.FormatCpulist` | src/llamaste/cpu_topology.h:60-85 | the text of the runs, separated by commas |
| `CpuList.ListedIs` | src/llamaste/cpu_topology.h:64-83 | a run of one is its number, a longer one both ends with a dash; commas stand between runs only |
| `CpuList.ParseCpulist` | src/llamaste/cpu_topology.h:42-57 | the set of the fields, an exception, or an overflowing loop counter |
| `CpuList.RangeFieldIs` | src/llamaste/cpu_topology.h:47-52 | two numbers and a dash: all from the first to the second |
| `CpuList.NumberFieldIs` | src/llamaste/cpu_topology.h:53 | one number, with blanks before it and anything but a dash behind it |
| `CpuList.FieldsCollected` | src/llamaste/cpu_topology.h:42-57 | each field adds what it stands for, or makes all of it fail |
| `CpuList.RunsMaximal` | src/llamaste/cpu_topology.h:60-85 | the runs are in increasing order, no two touch, and together they are the set |
| `CpuList.RoundTrip` | src/llamaste/cpu_topology.h:42-85 | parsing the text gives the set back if and only if no number is negative and the two largest ints are not both in it |
| `CpuList.TopTwoOverflow` | src/llamaste/cpu_topology.h:51 | the smallest set that does not come back: the loop counter would overflow |
| `ToolCalls.CutCovers` | src/llamaste/agent.cpp:26-35 | every byte of a text is kept text, a block or the unclosed tail, exactly one of them, and each tag is the first that is met |
| `ToolCalls.CutUnique` | src/llamaste/agent.cpp:26-35 | there is no other way to cut the text like that |
| `ToolCalls.ParseQwenToolCalls` | src/llamaste/agent.cpp:19-85 | the reader takes the bodies of these blocks, trims them, ignores what is no named call, numbers the rest, and throws where the JSON library does |
| `ToolCalls.NamedCallRead` | src/llamaste/agent.cpp:51-80 | a body that parses to an object with a name is that call, with the next id; its arguments are the dump of the object, or of what the string parses to, or of the empty object |
| `ToolCalls.OtherBodyIgnored` | src/llamaste/agent.cpp:40-58 | a blank body, one that is no object, and one without a name are ignored |
| `ToolCalls.IllTypedThrows` | src/llamaste/agent.cpp:54 | a name that is not a string makes the library throw |
| `ToolCalls.CallInText` | src/llamaste/agent.cpp:26-85 | one call in a text, from the text to the call |
| `ToolCalls.KeepOutside` | src/llamaste/agent.cpp:98-108 | the remover keeps exactly the kept text of the same pieces |
| `ToolCalls.EraseClosingTags` | src/llamaste/agent.cpp:109-110 | the stray-tag loop ends, with no closing tag left |
| `ToolCalls.ErasureOrderIrrelevant` | src/llamaste/agent.cpp:109-110 | in whatever order the stray tags are erased, the same text is left |
| `ToolCalls.StripToolCallResidue` | src/llamaste/agent.cpp:94-116 | the result is the kept text without closing tags and surrounding blanks, and contains no closing tag |
| `ToolCalls.TrimIs` | src/llamaste/agent.cpp:111-115 | trimming takes away the blanks on both sides, all of them and nothing else |
| `ToolCalls.PrintToolCalls` | src/llamaste/child_main.cpp:623-631 | the blocks the prompt builder writes for earlier calls |
| `ToolCalls.PrintedBodiesFound` | src/llamaste/child_main.cpp:621-631 | scanning printed blocks returns the same bodies if and only if none contains the closing tag |
| `ToolCalls.RoundTrip` | src/llamaste/child_main.cpp:621-631 | calls whose printed text parses to an object with their name and arguments are read back in order, with new ids |
| `ToolCalls.IdsDistinct` | src/llamaste/agent.cpp:70-73 | ids differ until the counter has gone all the way around |
| `ToolCalls.PrintedLeavesNothing` | src/llamaste/agent.cpp:94-116 | of blocks that are read in full, the user sees nothing |
| `ToolCalls.PlainTextKept` | src/llamaste/agent.cpp:94-116 | text without tags only loses its surrounding blanks |
| `ToolCalls.CoreKept` | src/llamaste/agent.cpp:94-116 | so of a text between blanks all of it is left |
| `ToolCalls.BlockRemoved` | src/llamaste/agent.cpp:94-116 | of a text with a block in it, what stands around the block |
| `Conversation.ConversationState.AddUserMessage` | src/llamaste/agent.cpp:122-127 | one user message at the end |
| `Conversation.ConversationState.AddAssistantMessage` | src/llamaste/agent.cpp:129-134 | one assistant message at the end |
| `Conversation.ConversationState.AddAssistantToolCalls` | src/llamaste/agent.cpp:136-141 | one message with calls and no text at the end |
| `Conversation.ConversationState.AddToolResult` | src/llamaste/agent.cpp:143-150 | one result with the call's id and name at the end |
| `Conversation.ConversationState.Truncate` | src/llamaste/agent.cpp:266-287 | the cut and the removal of orphans leave what the truncation function gives |
| `Conversation.TruncatedIsLongest` | src/llamaste/agent.cpp:266-287 | when it cuts, truncation leaves the longest suffix of the last messages that is empty or starts with neither a result nor a request |
| `Conversation.ShortKept` | src/llamaste/agent.cpp:268-270 | a history that is short enough stays as it is |
| `Conversation.TruncationKeepsPairing` | src/llamaste/agent.cpp:273-286 | truncation to any length never separates a call from its results |
| `Conversation.ConversationState.TakeRound` | src/llamaste/agent.cpp:415-460 | one round: every exception, the final text with its fallback, or a request with all its results |
| `Conversation.ConversationState.DispatchAll` | src/llamaste/agent.cpp:449-458 | the results up to the first dispatch that throws, clipped at 4000 |
| `Conversation.ConversationState.AgentTurn` | src/llamaste/agent.cpp:408-465 | the turn adds to the history what the turn function gives, with that outcome and that many inferences |
| `AgentTurns.TurnTold` | src/llamaste/agent.cpp:408-465 | given the rounds of calls that are held and how the turn ends: exactly their requests and clipped results are added, then what that ending adds, with its outcome and one inference for each |
| `AgentTurns.TranscriptExists` | src/llamaste/agent.cpp:408-465 | every turn has such rounds and such an ending |
| `AgentTurns.AnswerIsSaid` | src/llamaste/agent.cpp:433-443 | after any rounds, the text of a response without calls is said and stored without the blanks around it; the fallback is said exactly if nothing is left |
| `AgentTurns.FirstAnswerIsSaid` | src/llamaste/agent.cpp:433-443 | in particular the first response |
| `Conversation.TurnKeepsPairing` | src/llamaste/agent.cpp:408-465 | a paired history is paired after a turn on every exit path if and only if no dispatch threw |
| `Conversation.PairingKeptExactlyIf` | src/llamaste/agent.cpp:408-465 | for every model, history and number of rounds a turn keeps a paired history paired, if and only if no dispatch can throw |
| `Conversation.ThrowingDispatchUnpairs` | src/llamaste/agent.cpp:446-450 | one call to a tool that throws leaves a request without its result |
| `Conversation.TurnEnds` | src/llamaste/agent.cpp:414-464 | at most max_rounds inferences; a returned text is not empty and is the last message; after the last round the last message is a result |
| `Conversation.RunKeepsPairing` | src/llamaste/agent.cpp:122-465 | with tools that never throw, over every run of questions, turns and truncations each call is followed by exactly its results, in order and with matching ids |
| `Auth.AuthManager.IsValidSession` | src/llamaste/auth.cpp:205-216 | known, not empty and seen less than the timeout ago |
| `Auth.AuthManager.TouchSession` | src/llamaste/auth.cpp:218-226 | a known session is seen now, expired or not |
| `Auth.AuthManager.ExpireSessions` | src/llamaste/auth.cpp:228-250 | exactly the expired sessions and the attempts older than ten cooldowns are gone |
| `Auth.AuthManager.CreateSession` | src/llamaste/auth.cpp:196-203 | a session created and seen at the time read before the mutex |
| `Auth.AuthManager.InvalidateSession` | src/llamaste/auth.cpp:252-255 | that session is gone |
| `Auth.AuthManager.IsAuthenticated` | src/llamaste/auth.cpp:314-332 | first boot, a valid session, which is touched after whatever others do in between, or an accepted key |
| `Auth.AuthManager.RecordFailedLogin` | src/llamaste/auth.cpp:350-365 | with a time read earlier: counts on, from zero after the cooldown, stores that time, and says whether the limit is reached |
| `Auth.AuthManager.IsRateLimited` | src/llamaste/auth.cpp:367-376 | the limit is reached and the last failure is less than the cooldown ago |
| `Auth.AuthManager.Login` | src/llamaste/child_main.cpp:3855-3896 | limit, body, password, in this order, with other requests in between; only a wrong password is recorded, only a right one makes a session |
| `Auth.SessionLives` | src/llamaste/auth.cpp:196-226 | over every run of logins, touches, logouts and failures: a token is valid if and only if it has been logged in, not logged out since, and seen less than the timeout ago |
| `Auth.LoginThenLogout` | src/llamaste/auth.cpp:196-255 | after a login the token is valid for the timeout, after a logout not at all |
| `Auth.SweepsUnobservable` | src/llamaste/auth.cpp:205-250 | sweeping at any times changes no answer of any later call, if every touch meets a session unexpired or absent and no failure is recorded later than nine cooldowns after its reading |
| `Auth.UnobservableExactlyIf` | src/llamaste/auth.cpp:205-250 | no sweep can be told by a check at any time if and only if every touch meets a session unexpired or absent in the run without sweeps |
| `Auth.BareTouchReveals` | src/llamaste/auth.cpp:218-226 | a touch of an expired session tells whether it was swept |
| `Auth.SplitCheckReveals` | src/llamaste/auth.cpp:318-323 | a session that expires and is swept between the check and the touch of one `is_authenticated` is lost, without the sweep it lives on |
| `Auth.LatenessExactly` | src/llamaste/auth.cpp:350-362 | sweeps of login attempts can be told if and only if a failure may be recorded more than nine cooldowns after its reading |
| `Limiter.FailuresBounded` | src/llamaste/auth.cpp:350-376 | over every interleaving of the checks, clock readings, records and sweeps of n workers, any window shorter than the cooldown holds at most Reach(n) failed password checks of one address |
| `Limiter.OrderedBounded` | src/llamaste/auth.cpp:350-376 | at most MAX_FAILURES - 1 + n if readings of the address are recorded in the order they were taken |
| `Limiter.OneAtATime` | src/llamaste/child_main.cpp:3855-3889 | handled one at a time, at most MAX_FAILURES |
| `Limiter.BoundReached` | src/llamaste/auth.cpp:350-362 | for every n there is a run that reaches Reach(n), by recording old readings late; from two workers on that is more than recording in order allows |
| `Limiter.OrderedReached` | src/llamaste/child_main.cpp:3855-3889 | for every n there is a run in order that reaches MAX_FAILURES - 1 + n at one instant |
| `Limiter.ReachIs` | src/llamaste/auth.h:124-125 | twice Reach(n) is n(n + 9) |

## Left out

- Sockets, TLS, gzip and brotli, the HTTP client and URL decoding: foreign calls. A stream is a sequence of
  characters with arbitrary short reads. Which header lines the multipart parser accepts is a parameter of it.
- MultipartFields.FieldsExactlyIf: the decoding of extended filenames (`filename*`) is a parameter, and names
  with an asterisk are left aside.
- Receivers, progress callbacks and multipart callbacks that refuse.
- Chunked.ReadContentChunked: trailer lines are skipped, not parsed into fields.
- Chunked.WriteContentChunked: compression and `done_with_trailer` with fields; an `is_writable` that says no
  before a write has failed; the shutdown test is only looked at after the last call.
- ThreadPool.ShutdownDrains: fairness of the scheduler and the time a job takes; it bounds the steps.
- Gpt.GrowGptPartition: the protective MBR, the ioctls, a failing `open` and the file-system resize are not
  modelled. What lies in memory behind the two header structures is a parameter, as long as the stored header
  size asks for it.
- GptSafety.CrashSafe: a write is torn as a whole region; what a disk does to sectors outside the write is not
  considered.
- Election.Agreement: peers report the fields that decide elections truthfully; the 0.70 memory factor, the
  model tiers and the directory scans are not modelled. The score's conversion to a 32-bit int is.
- Ranges.Respond: response compression, and a response whose body and content length are both set.
- BcryptKeys.SameStreamSameHash: one way from the streams to the hash. Digests are shorter than streams, so
  passwords with different streams may have the same one. Passwords of 2^31 - 1 octets and more, where
  `(int)password.size() + 1` wraps around, are taken for long ones.
- Bcrypt.BcryptCheck: characters from 128 on in a hash index behind the decode table and are excluded; what
  the salt buffer held before is a parameter. No claim about cryptographic strength; the contents of the
  Blowfish tables are arbitrary.
- CpuList.ParseCpulist: a loop counter that would overflow is an outcome of its own, where C++ leaves the
  behaviour undefined.
- ToolCalls.ParseQwenToolCalls: JSON parsing and dumping are parameters; the counter is shared between threads
  in the original, where ids of one text need not be consecutive.
- ToolCalls.StripToolCallResidue: no claim about opening tags, because joining kept pieces can form one.
- Conversation.ConversationState.AgentTurn: the request text, the reading of responses and the tools are
  parameters, with their exceptions. Strings are sequences of octets; a result clipped inside a multi-octet
  character is a string like any other here.
- Conversation.RunKeepsPairing: persistence (`serialize`, `deserialize`) is not modelled; a run starts from any
  paired history.
- Auth.AuthManager.RecordFailedLogin: the failure count is unbounded, not a 32-bit int.
- Auth.SweepsUnobservable: the timeout is fixed during the run; changing it between a sweep and a check is
  observable by design.
- Limiter.BoundReached: workers take no time between two steps, and the scheduler may hold one up for long.
- Password hashing and token generation in the login route are parameters: `Password` says how the body
  and the check came out.
- The semantic cache, process supervision, WiFi, DHCP, the compositor, web routes other than login, module
  loading and networking at boot: system calls, or no theorem to prove.
