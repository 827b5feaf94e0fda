# Verified model of the core service

This project models five parts of the core service and proves what they promise. Every file is one module.

- **Knowledge intake.** `Chunker` slides a word-counted window over a section, `Coverage` says what the windows cover and `ChunkLaws` what each scan finds; `Normalizer` brings text to normal form, `Markdown` finds its warnings and `NormalLaws` says what both do character by character; `Headings`, `Sections` and `Source` cut the text into sections under heading paths, and `Offsets` says where in the document a chunk's characters come from.
- **Streaming acquisition.** `Framing` reassembles lines from a byte stream cut anywhere, `PullRun` is the bounded event loop over them, and `Utf8` holds the three text truncations.
- **Acquisition concurrency.** `Supervision` is the supervisor as a transition system, one step per lock region or unlocked read, `Supervisor` the object whose methods take those steps, and `QueueLaws` what its queue can always do: fill and drain; `Opening` and `Transport` are the same for the open/close race. `Jobs`, `PullJob` and `PullRunner` are the persisted jobs, the other actors that change them, and the execution of one pull with a database fault possible in every unit of work; `Acquisition` puts the supervisor and the jobs table together.
- **Image portability.** `Members`, `Tree`, `Placing` and `Extraction` are transactional extraction over a directory tree; `Ordering`, `Packing` and `TreeWalk` packing, its round trip and the bounded walk; `SecretScan` the budgeted scan of a JSON graph; `Layout`, `ImageLayout`, `LayoutLaws` and `LayoutChecks` assembling and validating image layouts.
- **Authoring.** `Manifests` and `Authoring` are the publish-and-compensate saga over files and database rows.

`Bytes`, `Options`, `PyText` and `Sets` hold what several modules share.

## How to read it

Code that updates state is a method, or a class with the source's fields, proved against a function of the same meaning; what the source promises is proved about that function, over every input, run or interleaving. The main ones also have a second description that does not use them: the line that decides a run, the trails through a scanned graph, the headings behind a path, the conditions for accepting a job, the members behind an extracted tree, the documents behind an accepted image. Failures the code cannot decide are parameters: `fault`, `closesBefore`, `others` and the like say at which step a system call raises, a stream is closed, or another actor acts, and nothing is assumed about them. What the supervisor's steps say has ended is what its own log says; `Acquisition` ties that log to the persisted statuses, and its methods show that the runner's work and the shutdown sweep are the steps it needs.

Where a promise does not hold as it is usually put, the exact condition is proved instead:

- A stream can be cut anywhere without a size error exactly when each newline-free segment is within the line cap. A line too long only by its carriage return passes whole and fails when split (`Framing.SafeToCutIffFits`, `Framing.SizeErrorsDependOnChunking`).
- The chunker loses nothing but a negligible tail exactly for the configurations `Coverage.Covering` describes: an effective overlap of at least one token, and a target that holds more words than the overlap and than the smallest chunk refuses. At least one word per token and an overlap are enough; an overlap of zero skips a whole word at an unextended boundary.
- A section with no more windows than chunks are allowed is not always accepted: the loop tests its limits at its top, so a tail too small for a chunk still counts. The exact condition names the tops of the loop (`Chunker.ChunkSection`, `Chunker.TopsOfWindows`), and for a covering configuration there is such a section exactly when `Coverage.CanLeaveText` holds (`Coverage.LeavesTextIffCan`, `Coverage.AsManyChunksAsAllowedRefused`).
- A chunk's offsets are offsets of the document exactly when no blank line of its section is before the line the chunk ends in, because a section's text leaves its blank lines out (`Offsets.ChunksOfSection`, `Offsets.BlankShifts`).
- Markdown with just as many warnings as the limit is accepted exactly when the last of them is on the last line (`Markdown.WarningsFitExactly`, `Markdown.AsManyAsTheLimitRefused`).
- A packed layout unpacks again exactly when its members, sizes, path lengths and depths are within the limits of the unpacking and each blob's name is a safe segment. Under one set of limits what is left to ask is that `max_members` is at least three, that the required names and the blobs' names are within the path length and depth, and that the blobs' names are safe: packing itself checks none of these (`Packing.PackThenUnpack`, `Packing.PackThenUnpackAlike`, `Packing.BackslashDoesNotUnpack`, `Packing.TooFewMembersDoNotUnpack`).
- An assembled image validates exactly when its documents are within the validator's size limits, its configuration holds no secrets, and its layers are within the blob and total limits with digests that all differ. Assembling asks for no secrets test and no different digests (`LayoutLaws.AssembleThenValidate`, `LayoutLaws.EqualContentsDoNotValidate`).
- What the truncation of a message returns is within its byte cap exactly when the cap is positive and the text is empty or the cap holds the marker; at every shorter cap the marker alone comes back, over the cap. The caps the service passes hold it (`Utf8.ForwardScanWithinCap`, `Utf8.ShortCapExceeded`, `Utf8.ServiceCapsKept`).
- Normalizing twice is normalizing once, yet a second call can fail for the byte cap, by one byte. It does exactly when the text just meets the cap and nothing is taken from it, so that the final newline is all that changes its length (`Normalizer.AddsAByteIffTight`, `Normalizer.SecondCallFailsIffTight`).
- The secret scan's item budget is not the number of nodes: entries waiting on the stack count too. A scan succeeds exactly when the graph is clean, unaliased, within the hit limit, and its peak, defined on the graph with children taken from the last to the first, is within `max_items`; the peak is at most one more than nodes and skipped entries together (`SecretScan.Scan`, `SecretScan.PeakAtMostTotal`).
- A request of the authoring service loses the agreement of files and rows only after two failing calls, with one exception: a source that is refused in a workspace the request created is torn by a single failing removal (`Authoring.Service.Handle`, `Authoring.TwoRaised`).

Some branches of the code turn out never to be taken, which the theorems say outright: the supervisor never starts a second worker and never discards a job by generation, a missing token never occurs, and `active_stream is not None` adds nothing to the staleness test.

## Premises

- `words_per_token` is a positive rational and `1 <= min_chunk_tokens <= target_tokens <= max_tokens`.
- Characters are Unicode scalar values; JSON and YAML libraries are a parser and a printer with the stated inverse, and SHA-256 is a function of the bytes. `LayoutLaws.ImageDigestIdentifies`, `LayoutLaws.IndexDigestIdentifies` and `LayoutLaws.ImageDigestProves` need it to be collision-free; `LayoutLaws.StoredContent` and `LayoutLaws.AssembleThenValidate` need less, that a blob already in the root under a source's digest is that source.
- During an extraction or a saga nothing else changes the tree, an unlink or rmdir that is legal succeeds when undoing, and the process does not crash.
- Database transactions are atomic.

## Model

| member | source | states |
|---|---|---|
| `Framing.Framer.Feed` | core/zana_core/acquisition/ollama.py:71-95 | over the byte budget nothing changes and the budget error is reported; otherwise the lines yielded, the new buffer and the size error are those of framing the buffered bytes with the chunk |
| `Framing.Framer.Finish` | core/zana_core/acquisition/ollama.py:112-123 | yields the last line of what is buffered, or none, or the tail error, and leaves the buffer empty |
| `Framing.SegmentsSplit` | core/zana_core/acquisition/ollama.py:77-95 | joining the newline-free segments of a byte string with newlines gives the string back |
| `Framing.SegmentsUnique` | core/zana_core/acquisition/ollama.py:77-95 | any newline-free segments joined by newlines are split into just those segments again |
| `Framing.ReferenceIsSplit` | core/zana_core/acquisition/ollama.py:77-123 | the reference lines are those of the segments, in order, and the tail is the last segment |
| `Framing.TrimmingDropsTwoCRs` | core/zana_core/acquisition/ollama.py:97-105 | a complete line loses its newline and up to two carriage returns |
| `Framing.FinishIsLastLine` | core/zana_core/acquisition/ollama.py:112-123 | within the cap, finishing yields the tail without one carriage return, unless it is blank |
| `Framing.FeedAllYields` | core/zana_core/acquisition/ollama.py:71-110 | for every cut of a stream: no error if and only if every complete line and every unfinished tail at a cut fits and the budget holds; then the lines are the complete lines of the whole, the buffer is its tail within the cap, and the byte count is its length |
| `Framing.ChunkingIndependent` | core/zana_core/acquisition/ollama.py:58-123 | for every cut of a stream: feeding then finishing yields the reference lines of the whole if no error is raised, and a prefix of them if one is; the error condition is exact |
| `Framing.FittingStreamFitsAnyCut` | core/zana_core/acquisition/ollama.py:77-110 | a stream within the budget whose newline-free segments are all within the line cap raises no error however it is cut |
| `Framing.SafeToCutIffFits` | core/zana_core/acquisition/ollama.py:77-110 | every cut of a stream passes if and only if it is within the budget and each of its segments is within the cap |
| `Framing.SizeErrorsDependOnChunking` | core/zana_core/acquisition/ollama.py:80-109 | a line too long only by its carriage return, and an over-long blank line, pass whole and fail when split |
| `PullRun.LineHandled` | core/zana_core/acquisition/ollama.py:395-437 | a line is passed over exactly when it is blank or an object without a status; it is malformed exactly when it does not decode to an object or completes more than its total; an accepted event carries its number, texts that are the longest prefixes within the caps, the total and completed counts exactly when the line has them as numbers in range, a progress of at most one exactly when both are there and the total is positive, and never the text of an error |
| `PullRun.ConsumeLine` | core/zana_core/acquisition/ollama.py:216-257 | what one line does, by what it says: passed over, counted and retained, or ending the run with its own verdict and code; a poll or the event cap ends the run before the line is looked at |
| `PullRun.ConsumeLines` | core/zana_core/acquisition/ollama.py:216-257 | the state after some of a batch's lines is the fold over all lines handled so far; a result reports that state |
| `PullRun.Pump` | core/zana_core/acquisition/ollama.py:210-302 | the lines handled are a prefix of the reference lines of the whole stream, and what ends the run is a poll, the framing, the end of the stream, or the first line that decides it |
| `PullRun.Run` | core/zana_core/acquisition/ollama.py:148-380 | for every cut and every interruption: SUCCEEDED means that a success line was handled and that no line before it is malformed, unreadable, an error, or over the event cap; undisturbed, the verdict, the code and the count are those of the first line that is malformed, unreadable, an error, a success or met when the cap is full, each code if and only if, and ended-without-success if there is no such line; admission denied and a failing close are reported exactly when they happen; the events counted are a prefix of the reference events, and retained are exactly the last of them |
| `PullRun.LineSays` | core/zana_core/acquisition/ollama.py:395-437 | a line stops the run as malformed, as unreadable, as an error or as a success exactly when what it decodes to is that |
| `PullRun.FoldDecided` | core/zana_core/acquisition/ollama.py:216-257 | a run over lines has stopped exactly at the first of them that decides it, for that line's reason, with the events before it counted |
| `PullRun.CausedJustifies` | core/zana_core/acquisition/ollama.py:148-380 | in every environment each verdict and code has its cause: a poll, the framing, the end of the stream, or the first deciding line |
| `PullRun.ReferenceByLines` | core/zana_core/acquisition/ollama.py:148-380 | the result over the reference lines, told by their first deciding line and nothing else |
| `PullRun.StopIsFinal` | core/zana_core/acquisition/ollama.py:250-257 | once a line has ended the run, later lines change nothing |
| `PullRun.FoldAccounts` | core/zana_core/acquisition/ollama.py:244-248 | after any lines the fold has consumed exactly the events accepted, at most the cap, and retains the last of them |
| `PullRun.EventsNumbered` | core/zana_core/acquisition/ollama.py:238-246 | accepted events carry consecutive sequence numbers from one |
| `PullRun.AccountsAgainst` | core/zana_core/acquisition/ollama.py:244-302 | what holds of the counts and the retained events after a prefix of the lines, said of the events of all lines |
| `Utf8.DecodeInvertsEncode` | core/zana_core/acquisition/redact.py:21-38 | decoding what was encoded gives the text back (UTF-8, section 3 of RFC 3629) |
| `Utf8.EncodeInvertsDecode` | core/zana_core/acquisition/redact.py:21-38 | bytes that decode at all are the encoding of what they decode to: no overlong or surrogate forms are accepted |
| `Utf8.EncodedForm` | core/zana_core/acquisition/redact.py:21-38 | the number of bytes and the bits each of them carries are those of the table of section 3 of RFC 3629 |
| `Utf8.FittingLongest` | core/zana_core/acquisition/ollama.py:475-484 | the kept prefix is within the byte cap and every longer whole-character prefix is not |
| `Utf8.PrefixDecodes` | core/zana_core/acquisition/ollama.py:475-482 | a byte prefix of an encoding decodes exactly when it ends at a character, which is at most three bytes back |
| `Utf8.PopUntilDecodes` | core/zana_core/acquisition/ollama.py:475-484 | popping bytes until the prefix decodes keeps the longest fitting whole-character prefix, pops at most three, and never falls through when the cap is at least four bytes |
| `Utf8.BoundedText` | core/zana_core/acquisition/ollama.py:465-484 | the text kept is the longest prefix within both caps; with a cap of four bytes or more a non-empty text is never lost |
| `Utf8.BoundedLongest` | core/zana_core/acquisition/redact.py:21-38 | the bounded text is a prefix within the character and byte caps, and no longer prefix is |
| `Utf8.RedactedText` | core/zana_core/acquisition/redact.py:21-38 | a text with control characters is replaced by a marker; any other is bounded |
| `Utf8.ForwardScan` | core/zana_core/api/jobs.py:289-312 | the scan over characters computes the truncation by its definition: the longest prefix within the budget, and the marker if anything was cut |
| `Utf8.TruncatedIs` | core/zana_core/api/jobs.py:289-312 | a text that fits the room the marker leaves comes back whole, and any other as the longest prefix that does, with the marker |
| `Utf8.ForwardScanWithinCap` | core/zana_core/api/jobs.py:289-312 | what the scan returns is within the byte cap if and only if the cap is positive and the text is empty or the cap holds the marker |
| `Utf8.ShortCapGivesMarker` | core/zana_core/api/jobs.py:289-312 | at every positive cap below the marker's fourteen bytes every text that is not empty comes back as the marker, over the cap |
| `Utf8.ShortCapExceeded` | core/zana_core/api/jobs.py:289-312 | the text of one letter at a cap of one byte comes back fourteen bytes long |
| `Utf8.ServiceCapsKept` | core/zana_core/api/jobs.py:276-370 | the caps the service passes are kept for every text |
| `Utf8.ScanAgreesWithPopping` | core/zana_core/api/jobs.py:289-312 | given the same byte budget the forward scan retains what the byte-popping form retains |
| `Chunker.EstimateAtMost` | core/zana_core/knowledge/chunker.py:96-103 | a word count is estimated at no more than some tokens exactly when it is at most the floor of tokens times words per token |
| `Chunker.CountWords` | core/zana_core/knowledge/chunker.py:307-317 | counts the places where a word starts after the given start or after white space |
| `Chunker.ScanWindowEnd` | core/zana_core/knowledge/chunker.py:270-304 | the word scan with its early stop and newline search ends a window where the definition does |
| `Chunker.FindOverlapStart` | core/zana_core/knowledge/chunker.py:319-331 | the backward scan finds the overlap start of the definition |
| `Chunker.FindNextCursor` | core/zana_core/knowledge/chunker.py:333-349 | the next cursor of the definition, by the overlap scan or by skipping a word and white space |
| `Chunker.ChunkSection` | core/zana_core/knowledge/chunker.py:197-268 | the chunks yielded are, in order, those of the section's windows; all of them if and only if the text is within its byte cap and no top of the loop meets the deadline, the number of chunks or a window that is too long; otherwise the error is the one of the first top that does, told by the deadline, the count and the next window's bytes, with the chunks before it |
| `Chunker.TopsOfWindows` | core/zana_core/knowledge/chunker.py:222-268 | the loop comes to its top once for each window, and once more exactly when text is left after the last |
| `ChunkLaws.EstimateIs` | core/zana_core/knowledge/chunker.py:96-103 | the estimate is the least positive number of tokens whose words are enough |
| `ChunkLaws.WindowEndIs` | core/zana_core/knowledge/chunker.py:270-304 | a window ends with the text if all its words fit the target, and otherwise at the first newline behind the word that is one too many if max_tokens allows it, and else before that word |
| `ChunkLaws.NextCursorIs` | core/zana_core/knowledge/chunker.py:333-349 | the next window starts at the overlap before the end if that is inside what was read, and otherwise at the next word behind the end |
| `ChunkLaws.PrefixIs` | core/zana_core/knowledge/chunker.py:236-252 | the text in front of a chunk is none for the first one or without an overlap, and otherwise the stripped text from the place that leaves exactly the overlap's words before the chunk |
| `ChunkLaws.YieldedAre` | core/zana_core/knowledge/chunker.py:228-262 | each chunk has its number, its offsets, the slice of the text between them, its estimate and its overlap text |
| `Coverage.WindowHolds` | core/zana_core/knowledge/chunker.py:270-304 | a window is estimated within max_tokens; one that stops short of the end has at least target's words, exactly as many unless extended to a newline, and ends before a word or at white space |
| `Coverage.OverlapStartFinds` | core/zana_core/knowledge/chunker.py:319-331 | the overlap start is the start of the word that leaves exactly the overlap's words before the end, or of the first word if there are fewer |
| `Coverage.StepInside` | core/zana_core/knowledge/chunker.py:264-268 | in a covering configuration the next window starts strictly inside the current one, at a word, and shares exactly the overlap's words with it: the loop's guard against standing still never fires |
| `Coverage.ChainedCovers` | core/zana_core/knowledge/chunker.py:222-268 | windows each starting inside the one before leave no position uncovered |
| `Coverage.WindowsFrom` | core/zana_core/knowledge/chunker.py:222-268 | in a covering configuration the windows chain without gaps, share exactly n0 words, are within their size bounds, and leave only a tail estimated below min_chunk_tokens or blank |
| `Coverage.WordPerTokenCovers` | core/zana_core/knowledge/chunker.py:96-103 | with at least one word per token and an effective overlap of at least one the configuration is covering, and target holds more words than the overlap |
| `Coverage.ChunkCountBound` | core/zana_core/knowledge/chunker.py:222-268 | a section of W words yields at most 1 + ceil(max(0, W - N) / (N - n0)) chunks |
| `Coverage.FullChunksReachTarget` | core/zana_core/knowledge/chunker.py:228-234 | with at least one word per token every window that does not reach the end is estimated at target or more |
| `Coverage.NotCoveringLoses` | core/zana_core/knowledge/chunker.py:222-349 | for every other configuration, a concrete text from which more than the negligible tail is lost |
| `Coverage.CoversEveryTextIffCovering` | core/zana_core/knowledge/chunker.py:222-349 | the windows cover every text if and only if the configuration is covering |
| `Coverage.AsManyChunksAsAllowedRefused` | core/zana_core/knowledge/chunker.py:222-227 | in every covering configuration whose smallest chunk refuses more words than the overlap takes, a section with one window whose loop comes to its top twice, so that a limit of one chunk refuses it |
| `Coverage.LeavesTextIffCan` | core/zana_core/knowledge/chunker.py:222-349 | for covering configurations: some section with as many windows as chunks are allowed is refused if and only if the smallest chunk refuses more words than the overlap takes, or just as many and max_tokens lets a window be extended over one more word to a newline |
| `Coverage.EmptyOverlapSkips` | core/zana_core/knowledge/chunker.py:344-349 | with no overlap, an unextended boundary skips exactly one whole word |
| `Normalizer.StripLines` | core/zana_core/knowledge/normalizers.py:32-45 | fails exactly when there are more lines than allowed; otherwise every line is stripped at its right |
| `Normalizer.TrimEnds` | core/zana_core/knowledge/normalizers.py:70-75 | removes just the empty lines at both ends |
| `Normalizer.NormalizeText` | core/zana_core/knowledge/normalizers.py:48-76 | computes the normal form, and its limit errors are exact |
| `Normalizer.LinesOfDocument` | core/zana_core/knowledge/normalizers.py:32-45 | lines, each ended by a newline, are read back as the same lines |
| `Normalizer.LinesOfJoin` | core/zana_core/knowledge/normalizers.py:153-164 | lines joined by newlines are read back as the same lines unless the last is empty |
| `Normalizer.NormalLinesAreNormal` | core/zana_core/knowledge/normalizers.py:64-75 | a normal form's lines are stripped, free of carriage returns and byte order marks, and not empty at either end |
| `Normalizer.NormalizeIdempotent` | core/zana_core/knowledge/normalizers.py:48-76 | normalizing twice is normalizing once |
| `Normalizer.NoMoreLines` | core/zana_core/knowledge/normalizers.py:66-69 | a second call counts no more lines than the first |
| `Normalizer.AddsAtMostOneByte` | core/zana_core/knowledge/normalizers.py:62-76 | the normal form is at most one byte longer than the text |
| `Normalizer.AddsAByteIffTight` | core/zana_core/knowledge/normalizers.py:62-76 | the normal form is longer than the text, and then by one byte, if and only if the text is tight: not empty, without CRLF pairs and byte order marks, neither beginning nor ending with a line break, and no line ending in white space |
| `Normalizer.SecondCallFailsIffTight` | core/zana_core/knowledge/normalizers.py:48-76 | after a call that succeeded, a second call on its result fails if and only if the text just meets the byte cap and is tight |
| `Normalizer.SecondCallCanFail` | core/zana_core/knowledge/normalizers.py:62-76 | a text that just meets the byte cap and whose normal form does not |
| `Normalizer.LinesKeepText` | core/zana_core/knowledge/normalizers.py:32-45 | a text's lines make up the text again, but for a final newline |
| `Normalizer.EndingsNormalizeAlike` | core/zana_core/knowledge/normalizers.py:64-65 | the LF, CR and CRLF forms of a text have the same normal form |
| `NormalLaws.DecodedOnePass` | core/zana_core/knowledge/normalizers.py:64-65 | the replacements of line endings and byte order marks, one after the other, are one pass: a carriage return with or without a newline behind it is one newline, and every other character stays |
| `NormalLaws.NormalLinesAre` | core/zana_core/knowledge/normalizers.py:64-76 | the normal lines are the decoded lines from the first to the last that is not blank, each without just the white space at its end |
| `Sections.ScanOfOrdered` | core/zana_core/knowledge/normalizers.py:144-200 | section spans begin and end at content lines, follow each other without touching, and contain no heading |
| `Sections.ScanGathers` | core/zana_core/knowledge/normalizers.py:144-200 | the spans' content lines, one span after the other, are all content lines |
| `Sections.SliceOfDocument` | core/zana_core/knowledge/normalizers.py:177-190 | from the start offset of one line to the end offset of another the document reads as those lines joined |
| `Sections.SpanFaithful` | core/zana_core/knowledge/normalizers.py:147-157 | a section's text is its slice of the document with the blank lines deleted, its offsets are in order and inside the document, and its path is the one the headings before its first line make |
| `Headings.PathBounded` | core/zana_core/knowledge/normalizers.py:158-160 | a heading path never has more than six entries |
| `Headings.HeadingIs` | core/zana_core/knowledge/normalizers.py:24-24 | a line is read as a heading exactly when it begins with one to six hashes and no more, white space behind them and something after that; its level is the number of hashes and its text the stripped rest |
| `Headings.PathIs` | core/zana_core/knowledge/normalizers.py:158-160 | the path in force is empty exactly when no heading came before; it ends with the text of the last one; a heading of level L keeps the first L - 1 entries, or all if there are fewer, and adds its text; and each entry is the text of the nearest heading at its depth, none since having come as high up |
| `Sections.ScanParted` | core/zana_core/knowledge/normalizers.py:137-206 | between two section spans there is a heading: nothing else ends a section |
| `Sections.SectionsPartition` | core/zana_core/knowledge/normalizers.py:137-206 | every non-blank line that is not a heading is in exactly one section, in order; spans are disjoint, increasing, and parted by headings only; every section is faithful to its slice and to the headings before it |
| `Source.CutSections` | core/zana_core/knowledge/normalizers.py:144-206 | the loop fails if and only if the document breaks a limit on lines, sections, path depth, heading or section bytes; otherwise it returns the document's sections |
| `Source.RefusedEarly` | core/zana_core/knowledge/normalizers.py:186-189 | a section already too long, or one too many, refuses the document whatever follows |
| `Source.AcceptableIs` | core/zana_core/knowledge/normalizers.py:144-206 | the limits of the loop, told by the headings and the sections: few enough lines and sections, no path too deep, no heading and no section too long |
| `Source.NormalizeSource` | core/zana_core/knowledge/normalizers.py:115-206 | the exact condition for success on kind, sizes, lines, warnings and sections; then the partition with every section faithful to its text and its headings and parted from the next by a heading, and the warnings of a Markdown source |
| `Markdown.WarningsAre` | core/zana_core/knowledge/normalizers.py:98-111 | the warnings are the numbers, in order, of just the lines outside fenced code that hold a link to the web and are no fence |
| `Markdown.FindWarnings` | core/zana_core/knowledge/normalizers.py:96-112 | the loop fails exactly when there are too many lines or the warnings before the last line are already as many as allowed; otherwise it returns the warnings |
| `Markdown.WarningsFitExactly` | core/zana_core/knowledge/normalizers.py:100-103 | the limit refuses a document exactly when it has more warnings than allowed, or as many and the last of them is not on the last line |
| `Markdown.AsManyAsTheLimitRefused` | core/zana_core/knowledge/normalizers.py:96-112 | a text whose normal form is two lines with one warning, on the first, and is refused at a limit of one warning |
| `NormalLaws.LinkIs` | core/zana_core/knowledge/normalizers.py:104-104 | a line has a link exactly when the regular expression, given by a semantics of its own, matches somewhere in it |
| `NormalLaws.FenceIs` | core/zana_core/knowledge/normalizers.py:25-25 | a line opens or closes fenced code exactly when the regular expression matches at its start |
| `NormalLaws.WarnsIs` | core/zana_core/knowledge/normalizers.py:98-111 | a line has a warning exactly when an even number of fences is before it, it is none itself, and it has a link |
| `Offsets.WhereHolds` | core/zana_core/knowledge/normalizers.py:173-190 | each character of a text without its blank lines is the one at its place in the document of all the lines |
| `Offsets.WhereGrows` | core/zana_core/knowledge/normalizers.py:173-190 | places keep their order and their distances never shrink |
| `Offsets.WhereOnto` | core/zana_core/knowledge/normalizers.py:173-190 | every character of a content line is the place of exactly one position, so the places are the content lines' characters and nothing else |
| `Offsets.ChunkOffsets` | core/zana_core/knowledge/chunker.py:218-254 | a chunk's characters come from its offsets, one by one, if and only if no blank line of the section is before the line of its last character; its text is then the document between them |
| `Offsets.ChunksOfSection` | core/zana_core/knowledge/chunker.py:197-268 | the same for every chunk of every section of a document |
| `Offsets.BlankShifts` | core/zana_core/knowledge/chunker.py:218-254 | a section with a blank line whose whole text is not the document between the offsets of the chunk that holds it |
| `Supervision.DispatchKeeps` | core/zana_core/acquisition/supervisor.py:119-143 | dispatch keeps the supervisor's invariant, whatever it decides and whether or not the thread starts |
| `Supervision.TakeRuns` | core/zana_core/acquisition/supervisor.py:199-208 | before shutdown the worker takes the oldest job with its own token: neither the missing-token branch nor the generation test ever applies |
| `Supervision.StepKeeps` | core/zana_core/acquisition/supervisor.py:119-239 | every lock region and unlocked read keeps the invariant |
| `Supervision.SupervisorSafe` | core/zana_core/acquisition/supervisor.py:119-239 | after any interleaving: at most one worker thread was ever started, tokens are within max_queue, pending jobs are distinct and have tokens, any other token is the busy worker's, no job was discarded, accepted jobs are those handed over in order, then those swept, then those pending, each once; each is waiting, running, awaiting the sweep's write, ended or hit by a database fault; once stopping, every reachable token is cancelled |
| `Supervision.ShutdownLeavesNothing` | core/zana_core/acquisition/supervisor.py:155-262 | once the sweep is written and the worker is not in a job, every job ever accepted has ended, unless the database failed on it |
| `QueueLaws.QueueFillsToLimit` | core/zana_core/acquisition/supervisor.py:119-143 | from any state a run reaches that is not stopping, fresh jobs fill the queue to exactly max_queue tokens, each of them accepted, and only then is the next one refused as full |
| `QueueLaws.QueueFills` | core/zana_core/acquisition/supervisor.py:119-143 | as long as there is room every fresh job is accepted, in the order of the dispatches |
| `QueueLaws.QueueDrains` | core/zana_core/acquisition/supervisor.py:187-230 | from any state a run reaches that is not stopping, the worker's own steps end with no job waiting and no token out; every job accepted has then been handed to the runner, in the order of acceptance, and has ended unless the database failed on it |
| `Supervisor.AcquisitionSupervisor.constructor` | core/zana_core/acquisition/supervisor.py:81-99 | the supervisor starts empty and valid |
| `Supervisor.AcquisitionSupervisor.Dispatch` | core/zana_core/acquisition/supervisor.py:119-143 | accepts if and only if the id is positive, the supervisor is not stopping, the job has no token, fewer than max_queue tokens are out, and the worker is alive or a thread starts; each refusal has its exact condition; an accepted job is queued last with a new token, and a refused one, a thread that cannot start included, leaves queue and tokens as they were |
| `Supervisor.AcquisitionSupervisor.Lookup` | core/zana_core/acquisition/supervisor.py:145-149 | finds this job's token, and none once stopping |
| `Supervisor.AcquisitionSupervisor.Take` | core/zana_core/acquisition/supervisor.py:198-208 | leaves when stopping, else pops the oldest job and runs it with its own token |
| `Supervisor.AcquisitionSupervisor.Finish` | core/zana_core/acquisition/supervisor.py:209-223 | the worker has run its job, which has ended unless marking it failed met a fault |
| `Supervisor.AcquisitionSupervisor.Release` | core/zana_core/acquisition/supervisor.py:224-226 | forgets the finished job's token and nothing else |
| `Supervisor.AcquisitionSupervisor.Exit` | core/zana_core/acquisition/supervisor.py:227-230 | the worker's last region clears the worker field |
| `Supervisor.AcquisitionSupervisor.StopAll` | core/zana_core/acquisition/supervisor.py:155-163 | stops, moves the generation on, and sets the flag of every token |
| `Supervisor.AcquisitionSupervisor.Joined` | core/zana_core/acquisition/supervisor.py:173-176 | clears the worker field only for the thread that was joined |
| `Supervisor.AcquisitionSupervisor.SweepAll` | core/zana_core/acquisition/supervisor.py:232-238 | empties queue and tokens; the jobs returned are the pending ones in order and at most one more, and they are exactly those that had a token |
| `Supervisor.RemoveAppended` | core/zana_core/acquisition/supervisor.py:137-141 | taking back a job that was not queued before restores the queue |
| `Acquisition.JointKeeps` | core/zana_core/acquisition/supervisor.py:119-262 | one step of the supervisor, with anything sound done to the jobs table meanwhile, keeps that every job the supervisor has to do with is a pull in the table and that those it holds to have ended have ended there |
| `Acquisition.EndedStays` | core/zana_core/jobs/services.py:71-149 | a pull that has ended in the table stays exactly as it is for the rest of a run |
| `Acquisition.AcceptedPullsEnd` | core/zana_core/acquisition/supervisor.py:119-262 | after any joint run each pull ever accepted is waiting, executing or about to be swept, or the database failed on it, or its persisted status is terminal |
| `Acquisition.ShutdownEndsPulls` | core/zana_core/acquisition/supervisor.py:155-262 | once the sweep is written and the worker is not in a job, every pull ever accepted has a terminal persisted status, unless the database failed on it |
| `Acquisition.WorkerRuns` | core/zana_core/acquisition/supervisor.py:209-223 | the worker running its job through the pull runner is a joint step that finishes it, as lost only when the execution and marking it failed have both raised |
| `Acquisition.ShutdownSweeps` | core/zana_core/acquisition/supervisor.py:232-262 | the sweep and its unit of work over the jobs table are the two joint steps, and leave nothing pending and no token |
| `Jobs.TerminalIsFinal` | core/zana_core/jobs/state_machine.py:98-116 | a state is terminal exactly when no state can be reached from it; FAILED and CANCELLED can be reached from every other |
| `Jobs.JobStore.Create` | core/zana_core/jobs/services.py:44-62 | adds one PENDING job with its CREATED event under a new id |
| `Jobs.JobStore.Transition` | core/zana_core/jobs/services.py:71-102 | succeeds exactly on a known job and from PENDING to RUNNING, from RUNNING to SUCCEEDED, or from either to FAILED or CANCELLED; then it sets status, phase, message, progress and error as given, leaves what is not given, and appends one event that says so |
| `Jobs.JobStore.Cancel` | core/zana_core/jobs/services.py:104-121 | cancels any job that has not ended, with its event |
| `Jobs.JobStore.RecordProgress` | core/zana_core/jobs/services.py:123-149 | records clamped progress with its event unless the job has ended |
| `Jobs.EvolvesOnward` | core/zana_core/jobs/services.py:71-149 | never going back, keeping the log and being frozen once ended carries over from step to step |
| `Jobs.ChangeEvolves` | core/zana_core/jobs/services.py:71-102 | an allowed transition keeps the log as a prefix and never changes an ended job |
| `Jobs.ChangeLogged` | core/zana_core/jobs/model_pull.py:136-156 | a pull's transitions keep its log well formed: created first, ended by exactly its last event, progress below one before that |
| `Jobs.CancelLogged` | core/zana_core/jobs/services.py:104-121 | so does a cancellation |
| `Jobs.ProgressLogged` | core/zana_core/jobs/services.py:123-149 | so does progress in [0, 1) |
| `Jobs.NothingAfterEnd` | core/zana_core/jobs/services.py:123-149 | the event that ends a pull is the last of its log, so no PROGRESS event follows it |
| `PullJob.SweepJobs` | core/zana_core/acquisition/supervisor.py:241-262 | every swept job that had not ended shows the shutdown's interruption, and no other job changes |
| `PullJob.RecoverPulls` | core/zana_core/jobs/model_pull.py:452-474 | exactly the waiting and running pulls show the restart's interruption and are counted |
| `PullJob.UserCancel` | core/zana_core/api/jobs.py:67-98 | a waiting or running pull is cancelled with its reason, error and event; any other job is left as it was |
| `PullJob.MarkFailed` | core/zana_core/jobs/model_pull.py:136-156 | unless the database fails the job has ended afterwards, by this change if it was active; a fault rolls everything back |
| `PullJob.Others` | core/zana_core/jobs/model_pull.py:452-474 | any actions of the other actors keep every job's history sound and make none succeed |
| `PullRunner.ProgressWriter.Write` | core/zana_core/jobs/model_pull.py:410-440 | a report is persisted if and only if there is room, the interval has passed since the last one, its value does not fall, the database does not fail and the job is known and not ended; the value is 0.99 for one and above, zero for none, else the report's; what one writer persists is non-decreasing, in [0, 1), at most max_events in number and, after a positive clock value, at least the interval apart |
| `PullRunner.PullRunner.Acquire` | core/zana_core/jobs/model_pull.py:103-118 | undisturbed, each report of the adapter is persisted exactly if it is due after those persisted before it, as one event of the job, whose progress is then the last one's |
| `PullRunner.Start` | core/zana_core/jobs/model_pull.py:87-101 | ends a job whose request is refused, starts a pending one, raises on one already running and changes nothing then |
| `PullRunner.Finish` | core/zana_core/jobs/model_pull.py:301-331 | records success only when discovery confirmed and the flag is not set; otherwise ends the job |
| `PullRunner.PullRunner.Confirm` | core/zana_core/jobs/model_pull.py:293-331 | an acquired pull ends as discovery and the flag say; it raises only for a fault, a raising lookup, or a job that had not begun |
| `PullRunner.PullRunner.Finalize` | core/zana_core/jobs/model_pull.py:282-337 | after it returns the job has ended; it can only have succeeded on an acquired, confirmed, uncancelled result |
| `PullRunner.PullRunner.Execute` | core/zana_core/jobs/model_pull.py:74-134 | whatever others do between its units of work: on return the job has ended, and it succeeded only if nothing stood in the way; it raises only for a fault in one of its units, a raising lookup, or a job already running; no history is left unsound; undisturbed it ends a pending pull just as its world calls for, status, phase, error code and message case by case, a confirmed one as SUCCEEDED with progress 1, and raises if and only if the lookup it comes to raises |
| `PullRunner.PullRunner.Work` | core/zana_core/acquisition/supervisor.py:209-223 | execution with its fallback leaves the job ended; it is lost only when the execution has raised and marking it failed has too |
| `Opening.StaleIffClosedSince` | core/zana_core/acquisition/transport.py:261-270 | the staleness test comes down to whether the transport's generation has moved on |
| `Opening.StepGenerations` | core/zana_core/acquisition/transport.py:234-290 | an outstanding open has the current generation exactly when it is the one being opened |
| `Opening.StepUnshared` | core/zana_core/acquisition/transport.py:234-290 | no two outstanding opens share a generation |
| `Opening.StepOwned` | core/zana_core/acquisition/transport.py:243-292 | every response is held by its call, the active stream's, about to be closed by a close, or closed |
| `Opening.CallKeepsGeneration` | core/zana_core/acquisition/transport.py:285-290 | a call keeps its generation while every close moves the transport's on by one |
| `Opening.InstalledIffNoCloseSince` | core/zana_core/acquisition/transport.py:234-276 | over whole runs: a response is installed if and only if no close ran since its open began |
| `Opening.TransportSafe` | core/zana_core/acquisition/transport.py:202-292 | after any interleaving of opens and closes: generations are unshared, at most one stream is active or opening, and when nothing is under way or active every response has been closed |
| `Transport.NativeTransport.BeginOpen` | core/zana_core/acquisition/transport.py:234-240 | begins only when no stream is active or opening |
| `Transport.NativeTransport.ClearOpening` | core/zana_core/acquisition/transport.py:280-283 | a failing open clears the mark only if no close has come since |
| `Transport.NativeTransport.Accept` | core/zana_core/acquisition/transport.py:261-278 | a response is given up exactly when a close has come since; otherwise its stream becomes the active one |
| `Transport.NativeTransport.Detach` | core/zana_core/acquisition/transport.py:285-290 | takes the active stream off and outdates every open under way |
| `Transport.NativeTransport.CloseStream` | core/zana_core/acquisition/transport.py:291-292 | the stream taken off is closed, once |
| `Transport.BoundedStream.Close` | core/zana_core/acquisition/transport.py:183-199 | closes the response on the first call only, and raises on every call exactly when closing it fails |
| `Transport.BoundedStream.Drain` | core/zana_core/acquisition/transport.py:160-199 | yields a prefix of what was read within the byte bound and always ends up closed exactly once; it raises the cleanup error exactly when closing fails; undisturbed it finishes if and only if the total is within the bound |
| `Members.JoinedSplit` | core/zana_core/images/archive.py:235-236 | joining a name's segments gives the name back |
| `Members.SplitJoined` | core/zana_core/images/archive.py:235-248 | splitting joined segments gives the segments back |
| `Members.SafeRelativeName` | core/zana_core/images/archive.py:219-248 | a name is accepted exactly when each of its segments is safe, and its path is then its segments |
| `Members.SamePathSameName` | core/zana_core/images/archive.py:506-508 | two names have the same path exactly when they are the same, so comparing paths finds duplicate names |
| `Tree.Unlinked` | core/zana_core/images/archive.py:568-570 | unlinking the file created last leaves just the earlier creations |
| `Tree.RemovedDir` | core/zana_core/images/archive.py:571-573 | once the files are gone the directory created last is empty, and removing it leaves just the earlier ones |
| `Tree.AllTakenBack` | core/zana_core/images/archive.py:567-574 | with every creation taken back the tree is the one before |
| `Tree.RefusedStaysRefused` | core/zana_core/images/archive.py:490-563 | a member that is refused refuses the archive whatever follows |
| `Extraction.Extractor.EnsureDir` | core/zana_core/images/archive.py:581-614 | creates just the missing directories on the path, or fails because of a file in the way or a failing call; what it created is on record |
| `Extraction.Extractor.Fill` | core/zana_core/images/archive.py:543-557 | the file holds the member's whole content, or a limit or a call failed |
| `Extraction.Extractor.Admit` | core/zana_core/images/archive.py:493-520 | a member passes exactly when its kind, name, length, depth, novelty, top-level entry and size do |
| `Extraction.Extractor.AddFile` | core/zana_core/images/archive.py:519-560 | the file is created with its content under its directories, or the reason why not |
| `Extraction.Extractor.AddMember` | core/zana_core/images/archive.py:490-563 | one turn of the loop does what placing the member means, or fails for a stated reason |
| `Extraction.Extractor.Undo` | core/zana_core/images/archive.py:567-574 | the tree is the one from before the extraction, and every handle it needs is open |
| `Extraction.Extractor.Extract` | core/zana_core/images/archive.py:466-578 | whichever call fails, a failed extraction leaves the tree exactly as it was; a successful one has left the members' files and the directories above them, and nothing else, and counts the files; without failing calls it succeeds exactly for the archives that can be extracted |
| `Placing.ExtractedIs` | core/zana_core/images/archive.py:466-578 | an archive is extracted exactly when it has few enough members, each is a regular file or directory with a safe name within the limits, below one of the four top-level entries, of the size its header says, no two have one name, none is below another's file, nothing but directories is in the way, and all bytes are within the total; the tree then holds what it held, the members' files with their contents, and the directories above them, and nothing else |
| `Placing.RoomFor` | core/zana_core/images/archive.py:519-560 | one member more fits the tree as it is now exactly when it fits the tree from before and is apart from the members placed so far |
| `Ordering.SortedSorts` | core/zana_core/images/archive.py:1074 | sorting orders the names and keeps each as often as it occurs |
| `Ordering.SortedUnique` | core/zana_core/images/archive.py:1074 | there is one ascending order of given names |
| `Ordering.BeforeIs` | core/zana_core/images/archive.py:1074 | the order is by the first character that differs, a text coming before those it begins |
| `Packing.CollectEntries` | core/zana_core/images/archive.py:1038-1074 | the sorted entries if they are regular files within the budget, else a refusal |
| `Packing.Pack` | core/zana_core/images/archive.py:1147-1279 | the members written are those of the layout, or one of the stated reasons refuses it: a missing or unsafe entry, a limit, or a blob name the tar format cannot hold |
| `Packing.PackedIff` | core/zana_core/images/archive.py:1147-1279 | a layout is packed exactly when its three documents and its blob directory are there, that holds only regular files, few enough of them, within the limits of bytes, and with names the format can hold |
| `Packing.PackedCarries` | core/zana_core/images/archive.py:1147-1279 | the members are the three documents and then the blobs in the order of their names, each with its own content and size |
| `Packing.ListingOrderIrrelevant` | core/zana_core/images/archive.py:1063-1074 | the archive's members do not depend on the order a directory is listed in |
| `Packing.PlaceBlobs` | core/zana_core/images/archive.py:490-563 | placing a layout's members into an empty tree succeeds exactly when the limits and blob names allow it, and gives the layout's files |
| `Packing.PackThenUnpack` | core/zana_core/images/archive.py:1147-1279 | unpacking what was packed into an empty directory, under limits of its own, succeeds if and only if members, sizes, path lengths and depths are within them and the blobs' names are safe; then it gives exactly the layout's files, with equal contents, and their directories |
| `Packing.PackThenUnpackAlike` | core/zana_core/images/archive.py:1147-1279 | under one set of limits it succeeds if and only if three members, the required names and the blobs' names are within them and the names are safe |
| `Packing.BackslashDoesNotUnpack` | core/zana_core/images/archive.py:1147-1279 | within any limits that leave room for a blob, a layout that is packed and not unpacked: its blob's name holds a backslash |
| `Packing.TooFewMembersDoNotUnpack` | core/zana_core/images/archive.py:1147-1279 | below three members a layout without blobs is packed and never unpacked |
| `TreeWalk.EverythingCounted` | core/zana_core/images/archive.py:1107-1139 | when the stack is empty every entry of the tree has been counted |
| `TreeWalk.StepProgressed` | core/zana_core/images/archive.py:1108-1132 | scanning a directory counts each of its entries once and leaves every other directory met on the stack |
| `TreeWalk.ScanDir` | core/zana_core/images/archive.py:1110-1139 | the loop over a directory fails exactly when the budget or an entry's kind, name or depth does not allow it, and otherwise returns its directories and its files' names |
| `TreeWalk.Walk` | core/zana_core/images/archive.py:1077-1144 | succeeds exactly on the trees of directories and regular files within the budget, with names that are safe, not too long and not too deep, whatever the listing order, and returns the names of all regular files, sorted |
| `SecretScan.Expand` | core/zana_core/images/secrets.py:291-341 | the children and hits of one node, or an error only if the node is bad, too wide for the budget, or has too many hits |
| `SecretScan.PopSum` | core/zana_core/images/secrets.py:277-342 | popping a node moves its own share to what is done and its children's to the stack |
| `SecretScan.TopCounts` | core/zana_core/images/secrets.py:277-294 | what the node on top adds to the whole: at least itself, its entries and what else is on the stack |
| `SecretScan.PeakPop` | core/zana_core/images/secrets.py:277-294 | popping a node asks the item budget for its demand now, and for the peak of what is on the stack then: the peak of the graph is the most that is asked |
| `SecretScan.PeakAtMostTotal` | core/zana_core/images/secrets.py:277-294 | the peak is at most one more than the nodes visited and the entries skipped |
| `SecretScan.Scan` | core/zana_core/images/secrets.py:261-343 | on any graph, cyclic or aliased, it ends, and it succeeds if and only if nothing wrong is reached, no container is reached by two trails, the hits are within their limit and the peak of the graph is within max_items; a path is then among its hits, as often as it occurs, if and only if it is that of a reached entry with a sensitive key and a text that is not empty, and as many nodes were visited as trails lead somewhere; the item budget is reported only when the peak is over it |
| `SecretScan.RecursiveIs` | core/zana_core/images/secrets.py:261-343 | the recursive scan told by reachability: it is clean exactly when every entry reached has a string key within its length, a path within its length, a value JSON has, and under a sensitive key a text within its length, null or an allow-list; it meets nothing twice exactly when no two trails lead to one container; and what it finds are the secrets reached |
| `SecretScan.TrailsAre` | core/zana_core/images/secrets.py:296-342 | of a clean graph the recursive scan is the sum over the trails, each taken once: its hits, its nodes, the entries it skips and the containers it meets |
| `SecretScan.DecimalReads` | core/zana_core/images/secrets.py:327 | an index is written in digits without a leading zero that read as the index |
| `SecretScan.LimitCutsNothing` | core/zana_core/images/secrets.py:289-290 | when nothing is wrong the depth limit cuts nothing off: no deeper limit changes the recursive scan |
| `Manifests.DeclaredOnce` | core/zana_core/capabilities/authoring.py:914-961 | declaring a source makes the manifest declare it, leaves other sections alone, and doing it again changes nothing |
| `Manifests.DeclaredIs` | core/zana_core/capabilities/authoring.py:914-961 | adding a source is refused exactly when its section, or the sources in it, is there, not null and of the wrong shape; otherwise every other section and every other field of the section is kept, and the section gains the one entry: for a document the old items, followed by one new item if and only if none pointed there |
| `Manifests.StillDeclares` | core/zana_core/capabilities/authoring.py:914-961 | declaring one source does not undeclare another |
| `Authoring.WithoutPath` | core/zana_core/api/capabilities.py:542 | deleting a path's rows deletes those and keeps every other, and one row per path stays one row per path |
| `Authoring.ReplacedCoherent` | core/zana_core/api/capabilities.py:541-628 | replacing a file together with its row and the manifest keeps database and workspace in agreement |
| `Authoring.PutBack` | core/zana_core/api/capabilities.py:128-147 | restoring the backup, or removing a new file, undoes the publication whether or not it had happened |
| `Authoring.Service.CreateCapability` | core/zana_core/api/capabilities.py:222-287 | on success row and manifest are the same new ones; a failure leaves files and rows as before; an unconfirmed rollback touches no other capability and takes two failing calls; with no failing call it succeeds if and only if there is no workspace at its path |
| `Authoring.Service.UpdateCapability` | core/zana_core/api/capabilities.py:295-410 | on success name, version and manifest are what was given and otherwise as before, the rows stay, and the manifest on disk is the new one, or gone if it is empty; a failure leaves files and rows as before; an unconfirmed rollback takes two failing calls; with no failing call it succeeds if and only if the capability exists |
| `Authoring.Service.Publish` | core/zana_core/api/capabilities.py:591-618 | either both files are published or the workspace is as before, unless two calls have failed and the rollback is unconfirmed |
| `Authoring.Service.AddCapabilitySource` | core/zana_core/api/capabilities.py:449-653 | on success the file, its one row and the manifest are replaced together; the new manifest is the stored one, or without it the one on disk or the default, with the source's section grown by its entry and all else kept; a failure leaves files and rows as before; an unconfirmed rollback takes two failing calls, or one where the request is refused in a workspace it created; with no failing call it succeeds if and only if the manifests agree and no section has the wrong shape |
| `Authoring.Service.Handle` | core/zana_core/api/capabilities.py:222-653 | one request has its outcome: done with its whole effect, failed without a trace, or unconfirmed after enough failing calls; it keeps every capability in agreement with its workspace, except the one whose rollback is unconfirmed |
| `Authoring.RunAgrees` | core/zana_core/api/capabilities.py:222-653 | after any run of requests, each having its outcome in the world the one before it left, every capability whose rollback was not reported unconfirmed agrees with its workspace, has one row per path, and each row's hash is its file's; no more rollbacks were unconfirmed than calls failed |
| `Authoring.TornAre` | core/zana_core/api/capabilities.py:137-147 | the capabilities set apart are just the targets of the requests reported unconfirmed |
| `Authoring.TwoRaised` | core/zana_core/api/capabilities.py:222-653 | counting failing calls: the count rises by one exactly when some call in between failed, and by two exactly when two different ones did |
| `Authoring.Service.Serve` | core/zana_core/api/capabilities.py:222-653 | every request is handled in turn with its outcome, results and targets in order; at the end all capabilities but those reported unconfirmed agree with their workspaces, all of them if none was reported or no call failed |
| `ImageLayout.LayoutDir.Install` | core/zana_core/images/oci.py:987-1038 | writes a missing file, accepts an equal one, refuses any other |
| `ImageLayout.LayoutDir.StreamBlob` | core/zana_core/images/oci.py:1041-1148 | stores a blob under its digest, or checks the one already there |
| `ImageLayout.LayoutDir.Assemble` | core/zana_core/images/oci.py:1151-1296 | succeeds exactly when the preflight passes and nothing in the root conflicts; then root and digests are those of the configuration and the sources in role order |
| `ImageLayout.LayoutDir.Validate` | core/zana_core/images/oci.py:1450-1608 | accepts just the roots the definition of a valid layout accepts, with its digests, order and byte count |
| `ImageLayout.LayoutDir.VerifyLayers` | core/zana_core/images/oci.py:1570-1598 | the running total if every layer passes and no digest repeats |
| `ImageLayout.Preflight` | core/zana_core/images/oci.py:1215-1225 | passes exactly when every source is within the blob limit and their total within the total limit |
| `LayoutLaws.AssembleAgain` | core/zana_core/images/oci.py:1151-1296 | assembling the same image again succeeds and changes nothing |
| `LayoutLaws.OrderOfKeysIrrelevant` | core/zana_core/images/oci.py:1200-1225 | the order of the source mapping does not matter |
| `LayoutLaws.ImageDigestIdentifies` | core/zana_core/images/oci.py:1232-1296 | two images have the same digest if and only if configuration, roles and contents are the same, given collision-free digests |
| `LayoutLaws.IndexDigestIdentifies` | core/zana_core/images/oci.py:1450-1608 | two accepted roots with one index digest, however they came about, have the same configuration, manifest digest, layer order and layer contents, given collision-free digests |
| `LayoutLaws.ImageDigestProves` | core/zana_core/images/oci.py:1450-1608 | a root accepted with an image's digest holds that image: its configuration, its digests in order and each source's content, given collision-free digests |
| `LayoutLaws.StoredContent` | core/zana_core/images/oci.py:1041-1148 | the first source with a digest is what ends up stored under it |
| `LayoutLaws.LayersVerified` | core/zana_core/images/oci.py:1570-1598 | the layers of an assembled image pass exactly when their digests all differ and the limits hold |
| `LayoutLaws.AssembleThenValidate` | core/zana_core/images/oci.py:1450-1608 | validating what was assembled succeeds exactly when the documents fit, the configuration holds no secrets, and the layers are within the limits with digests that all differ; it then returns the same configuration, digests and layer order |
| `LayoutLaws.EqualContentsDoNotValidate` | core/zana_core/images/oci.py:1151-1296 | two roles with the same content are assembled into a layout that no limits let validate |
| `LayoutChecks.AcceptedIff` | core/zana_core/images/oci.py:1490-1598 | a root is accepted if and only if its layout version, the schemas and media types of index and manifest, the media type of the configuration, the sizes and digests of all three, the tests for secrets and digests, and each layer's media type, presence, digest, size, novelty and share of the total are what is asked |
| `LayoutChecks.AssembledIff` | core/zana_core/images/oci.py:1151-1296 | an image is assembled if and only if the preflight passes, a blob already under a source's digest has that digest and is not too long, and nothing else is under the configuration's digest or the three documents' names |
| `LayoutChecks.AssemblyAdds` | core/zana_core/images/oci.py:1226-1296 | assembling keeps every file and blob that was there and adds the three documents, the configuration and each source that is the first with its digest, and nothing else; the manifest describes each of them by media type, digest, size and role |

## Left out

- The desktop user interface, routing, authentication, request schemas and object-relational mappings: no algorithm of their own.
- File descriptors, symlink and inode checks, fsync, chmod, sockets, tar, gzip and zstd formats: a tree of names, kinds and contents, a list of members, and calls that may fail stand in for them.
- Build jobs, admission checks, gates, probes, instance control, embeddings and manifest, training and evaluation validation: finite tables, short branches, or floating point.
- Section and chunk ids.
- Deadlines and clocks are parameters; which of several errors a deadline pre-empts is stated for the chunker only.
- Case folding: which keys the secret scan calls sensitive is a parameter, and the member-name and path classifiers are not modelled.
- The reading of events, pages and server-sent streams of jobs.
- Ordering.SortedSorts: the built-in sort is modelled as an insertion sort on names, because only its result matters.
- Chunker.ChunkSection: the generator is modelled as the list of what it yields, so a caller that stops early is not modelled.
- Source.NormalizeSource: the hard maxima of the result's own type, on its retained bytes among others, are not modelled.
- Transport.BoundedStream.Close: a close is one step, so a second close between marking the stream closed and recording a cleanup error is not modelled.
- PullRun.Run: parsing a line as JSON is a function given to the run, so the parser's own errors are two outcomes of it.
- PullRunner.PullRunner.Execute: the persisted request's validation and the adapter's run are outcomes given to the execution, because neither writes to the jobs except through the progress writer.
- Supervisor.AcquisitionSupervisor.Dispatch: a thread that dies of something other than an exception is not modelled.
- Extraction.Extractor.Undo: errors of unlink and rmdir while undoing, which the code suppresses, are not modelled.
- Packing.Pack: a file that changes between its preflight and its copy is not modelled, because nothing else writes during a call.
- Authoring.Service.RemoveWorkspace: a removal that fails part of the way is modelled by one outcome, the loss of all sources, because it is reported as unconfirmed whatever is left.
- Authoring.Service.RestoreFile: the existence test after a successful removal is taken not to raise.
- ImageLayout.LayoutDir.Assemble: failing writes are not modelled; the code makes no promise about what they leave behind.
- Descriptors: annotations other than the role, and the syntax of digests and media types, are not modelled.
