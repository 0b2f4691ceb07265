# dos2unix64 and its command line checks, in Dafny

This project models the core of dos2unix, a Go tool that converts DOS line
endings to Unix ones. It covers three things:

- `dos2unix64`, the transcoder. It reads its input into an eight-byte buffer,
  reads the buffer as a big-endian 64-bit word and finds CR LF pairs with
  word masks. It deletes the CR of every pair with shifts and writes the
  rest. A CR in the last byte of the buffer is held back ("carried") into
  the next read, so a pair that straddles two reads still collapses.
- The 64-bit constants the transcoder tests and rewrites with
  (`crlfK`, `maskK`, `leftK`, `rghtK`, `crXXX`, `lefts`).
- `ParseFlags` and `expandFilesNewfile`. These choose between the default
  mode (convert files in place) and newfile mode (convert pairs of names).
  They reject a clash of the two mode flags and validate newfile mode's list
  of names. Every problem is gathered, the way `multierr.Append` gathers
  errors.

The modules, in dependency order:

- `LineEndings` (`line_endings.dfy`): the reference behaviour. `Collapse`
  deletes every CR that is immediately followed by LF. It is proved equal to
  `strings.ReplaceAll(s, "\r\n", "\n")`, the oracle of the filter tests.
- `Masks` (`masks.dfy`): the constants as `bv64` values, the big-endian byte
  view of a word, and one lemma per byte position for each test and each
  rewrite.
- `Chunk` (`chunk.dfy`): one turn of the loop on bytes. `Step` masks the
  stale tail, snapshots the buffer, tests for a trailing CR and scans right
  to left. `StepWrites` says that it writes the collapse of the valid bytes,
  less a carried CR. There are two variants of the trailing-CR test:
  - `AsWritten`: byte 7 only, as filter.go does;
  - `Corrected`: the last byte actually filled.
- `Word` (`word.dfy`): the same turn in filter.go's word arithmetic
  (`Uint64`, `& lefts[len]`, the seven `crlfK` tests with their rewrites,
  `PutUint64`). `Word.Turn` is proved to give exactly the byte-level
  `Step(AsWritten, …)`.
- `Stream` (`stream.dfy`): `io.Reader` and `io.Writer` as values.
  - A `Source` is the remaining input plus a plan of unusual replies: short
    reads, data returned together with `io.EOF`, and read errors. With an
    empty plan it behaves like `strings.Reader`.
  - A `Sink` fails on one chosen call, or never.
- `Filter` (`filter.dfy`): the read loop as a recursive function (`Run`),
  with its invariant. `RunSound` gives the main result from any state that
  satisfies the invariant.
- `Theorems` (`theorems.dfy`): what a call from a fresh buffer delivers.
- `Loop` (`loop.dfy`): `dos2unix64` as the imperative loop filter.go writes.
  Its invariant ties it to `Filter.Run`.
- `Findings` (`findings.dfy`): two discrepancies with the oracle, each on a
  concrete input, next to the corrected loop.
- `Config` (`config.dfy`): `ParseFlags` and `expandFilesNewfile`.

## Model

| member | source | states |
|---|---|---|
| LineEndings.CollapseIsReplaceAll | filter_test.go:44-50 | Deleting the CR of every CR LF pair gives exactly strings.ReplaceAll(s, "\r\n", "\n"), the oracle the tests compare the output with |
| LineEndings.LengthLaw | filter_test.go:50 | The converted text is shorter than the input by exactly the number of CR LF occurrences, which is the count the tests expect back |
| LineEndings.PassThrough | filter_test.go:20-21 | The output equals the input if and only if the input holds no CR LF pair |
| LineEndings.ContentsPreserved | filter_test.go:84-92 | Only CRs are removed: every other byte value keeps its count, and the CR count drops by the number of pairs |
| LineEndings.CollapseAppend | filter.go:39-44 | Converting a concatenation is converting each part, unless a CR LF pair straddles the seam; this is why a CR at the end of a chunk must be carried |
| LineEndings.TrailingCrSurvives | filter.go:116-122 | A CR at the very end of the input is never deleted, so flushing a carried CR at io.EOF is right |
| LineEndings.ShortExamples | filter_test.go:17-19 | The empty input stays empty, CR LF becomes LF, and CR CR LF becomes CR LF |
| LineEndings.PairAtChunkEndExample | filter_test.go:27-37 | The oracle's value for two test inputs: "123456\r\n" becomes "123456\n" and "0123456\r\n" becomes "0123456\n". The runs of dos2unix64 itself on them are `Theorems.PairAtBufferEnd` |
| LineEndings.CrAtEndExample | filter_test.go:28-38 | The oracle's value for two test inputs: "1234567\r" and "01234567\r" are unchanged, because a final CR has no LF after it. The runs of dos2unix64 itself on them are `Theorems.CrAtInputEnd` |
| Masks.BytesRoundTrip | filter.go:61 | Reading eight bytes as a big-endian word and writing the word back are inverse, both ways (binary.BigEndian.Uint64 and PutUint64) |
| Masks.LastByteTest | filter.go:67 | (x & mask7) == crlf7 holds exactly when byte 7 of the buffer is CR |
| Masks.Pair0 | filter.go:99 | (x & mask0) == crlf0 holds exactly when bytes 0 and 1 are CR and LF |
| Masks.Pair1 | filter.go:95 | (x & mask1) == crlf1 holds exactly when bytes 1 and 2 are CR and LF |
| Masks.Pair2 | filter.go:91 | (x & mask2) == crlf2 holds exactly when bytes 2 and 3 are CR and LF |
| Masks.Pair3 | filter.go:87 | (x & mask3) == crlf3 holds exactly when bytes 3 and 4 are CR and LF |
| Masks.Pair4 | filter.go:83 | (x & mask4) == crlf4 holds exactly when bytes 4 and 5 are CR and LF |
| Masks.Pair5 | filter.go:79 | (x & mask5) == crlf5 holds exactly when bytes 5 and 6 are CR and LF |
| Masks.Pair6 | filter.go:75 | (x & mask6) == crlf6 holds exactly when bytes 6 and 7 are CR and LF |
| Masks.Partition | constants.go:14-37 | For each k from 1 to 6, leftK, the mask of byte k and rghtK are pairwise disjoint and cover the word; maskK is exactly bytes k and k+1 |
| Masks.CarrySeed | constants.go:4 | crXXX has LF in byte 0, and with byte 0 overwritten by CR it is a CR followed by seven zero bytes |
| Word.LeftsKeepPrefix | constants.go:42 | Masking with lefts[k] keeps the first k bytes and zeroes the rest, for every k from 0 to 8 |
| Word.Load | filter.go:61 | The loaded word's bytes are the valid bytes of the buffer followed by zeros, so stale bytes from a longer earlier read cannot take part in a test |
| Word.HoldBack | filter.go:66-70 | A CR is carried exactly when byte 7 of the snapshot is CR, and then the length loses one |
| Word.Fold6 | filter.go:75-78 | The test at byte 6 and its rewrite perform the byte-level scan's step at position 6: the CR is deleted when a pair is found there |
| Word.Fold5 | filter.go:79-82 | The same for byte 5 |
| Word.Fold4 | filter.go:83-86 | The same for byte 4 |
| Word.Fold3 | filter.go:87-90 | The same for byte 3 |
| Word.Fold2 | filter.go:91-94 | The same for byte 2 |
| Word.Fold1 | filter.go:95-98 | The same for byte 1 |
| Word.Fold0 | filter.go:99-102 | The same for byte 0, where the rewrite is a plain shift |
| Word.Turn | filter.go:58-104 | One turn of the word arithmetic writes the conversion of the valid bytes, less a CR in byte 7 of a full buffer, which is carried; it agrees byte for byte with the byte-level step |
| Chunk.Mask | filter.go:61 | The masked buffer keeps the first len bytes and zeroes the rest |
| Chunk.DeleteAt | filter.go:76 | The rewrite removes byte k, moves the later bytes one place to the front and shifts in a zero |
| Chunk.StepWrites | filter.go:58-104 | A turn writes the conversion of the valid bytes, less a carried CR. As written, a CR is carried exactly when the buffer is full and byte 7 is CR; the corrected test carries exactly when the last filled byte is CR |
| Chunk.ScanCollapses | filter.go:72-102 | Scanning right to left, testing the snapshot and rewriting the working copy, ends with the conversion of the snapshot; len loses one per pair |
| Chunk.StepCollapses | filter.go:58-102 | The scan of the masked snapshot equals the conversion of the valid bytes, and the trailing-CR decision is the variant's |
| Filter.Start | filter.go:46-48 | The loop starts with nothing carried, nothing read and nothing written |
| Filter.SeedIsCrXXX | filter.go:110-113 | The buffer a carried CR starts the next turn with is crXXX written back big-endian, with byte 0 overwritten by CR |
| Filter.Fill | filter.go:51 | A read into bb[offset:] stores its bytes from offset on and keeps the bytes before offset |
| Filter.CycleWrites | filter.go:104-113 | When the writer accepts, a turn writes the conversion of the chunk less a carried CR, adds the bytes written to total, and re-seeds the buffer exactly when it carries |
| Filter.RunOnce | filter.go:50-114 | After a read without error and an accepted write, the loop continues from the state CycleWrites describes |
| Filter.RunAtEnd | filter.go:52-54 | With the input used up and nothing carried, the loop returns its count and no error |
| Filter.FinishSound | filter.go:116-124 | The final flush writes a carried CR last. It fails exactly when that write is refused, and otherwise the writer holds the conversion of everything read |
| Filter.InvSound | filter.go:66-70 | While a CR is carried, what has been written is a prefix of the conversion of everything read |
| Filter.RunSound | filter.go:45-125 | From any state of the loop's invariant: the count is what the writer accepted, and that is a prefix of the conversion of the bytes read. With no error it is all of it. A write error means the writer refused the last call made, read errors come only from the reader, and the input is read to its end unless io.EOF comes early. The as-written loop is covered for readers whose every read either fills the buffer as far as the input goes or fails |
| Filter.TurnOnce | filter.go:58-113 | After a read without error, one turn either ends the run with a good outcome or leaves the invariant in force for the rest of the input |
| Theorems.TranscodesFullReads | filter.go:45-125 | For a strings.Reader and a writer that accepts every call: no error, all input read, the writer holds strings.ReplaceAll(input, "\r\n", "\n"), and the count is the input length less the number of pairs |
| Theorems.FullReadsSound | filter.go:55-57 | The loop as written, over a reader that fills the buffer but may fail on any call: whatever error comes back, the count is that of the bytes the writer accepted. Those bytes are the start of the converted input read so far, and with no error they are all of it. A write error means the writer refused the last call made. A read error means the reader failed on some call, and `Theorems.ReadErrorOnAnyCall` is the converse. With neither failing, the writer holds strings.ReplaceAll of all the input |
| Theorems.ReadErrorOnAnyCall | filter.go:51-57 | Either loop, when read pre + 1 is the first to fail and the writer accepted the pre writes before it: dos2unix64 returns exactly that read error, after exactly pre writes, with the count of the bytes written |
| Theorems.WriteErrorsOnly | filter.go:105-108 | For a strings.Reader and any writer: the count is what the writer accepted, and that is a prefix of the converted input. The only possible error is a write error. It means the writer refused the last call made, so it never comes from a writer that accepts every call, and without it the output is exact |
| Theorems.EmptyInput | filter.go:52-54 | An empty input writes nothing, returns 0 and no error |
| Filter.ReadErrorReturned | filter.go:51-57 | From any loop state: after pre error-free reads, each followed by an accepted write, a failing read ends the loop at once. It returns its own error, makes no further write, and the count has grown by exactly what the writer accepted |
| Theorems.PairAtBufferEnd | filter_test.go:27-37 | dos2unix64 over strings.Reader and an accepting writer, on "123456\r\n", where the pair ends the first 8-byte read, and on "0123456\r\n", where the CR ends the first read and is carried into the second: no error, the writer gets "123456\n" and "0123456\n", and the counts are 7 and 8 |
| Theorems.CrAtInputEnd | filter_test.go:28-38 | dos2unix64 over strings.Reader and an accepting writer, on "1234567\r", where the final CR is carried and then flushed at io.EOF, and on "01234567\r", where it comes alone in the second read: no error, the input is written unchanged, and the counts are 8 and 9 |
| Theorems.FirstReadFails | filter.go:55-57 | A read error on the first call is returned at once with count 0, whatever input follows |
| Theorems.CorrectedTranscodes | filter.go:45-125 | The corrected loop, for any reader and any writer, has RunSound's guarantees |
| Theorems.CorrectedShortReads | filter.go:45-125 | The corrected loop over any mix of short reads writes strings.ReplaceAll(input, "\r\n", "\n") and returns its length |
| Loop.Spin | filter.go:58-113 | The loop body's word arithmetic, write and re-seed give the recursive model's turn, including the early return on a write error |
| Loop.Flush | filter.go:116-124 | The imperative final flush gives the recursive model's Finish |
| Loop.Dos2unix64Loop | filter.go:45-125 | The imperative loop returns the recursive model's count, error and writer contents. For a strings.Reader and an accepting writer that means no error, strings.ReplaceAll of the input, and its length |
| Findings.ShortReadKeepsPair | filter.go:66-70 | A reader that returns the CR of a pair in a one-byte read makes the as-written loop write CR LF where the oracle gives LF |
| Findings.EmptyReadFlushesCr | filter.go:58-70 | An empty read with no error while a CR is carried makes the as-written loop write the carried CR before its LF arrives |
| Findings.ShortReadCorrected | filter.go:66-70 | The corrected loop writes LF for that one-byte read |
| Findings.EmptyReadCorrected | filter.go:58-70 | The corrected loop keeps the CR carried over the empty read and collapses the pair |
| Findings.EofDataDropped | filter.go:52-54 | Bytes a reader returns together with io.EOF are never written, and no error is reported |
| Findings.EofDataKept | filter.go:52-54 | The corrected loop writes a byte other than CR that comes with io.EOF, and counts it |
| Config.ExpandFilesNewfile | config.go:100-125 | The list comes back unchanged and in order. Each name containing '*' is reported, and so is an odd count. The list is accepted exactly when its length is even and no name contains '*'. The "at least one pair" error is never reported |
| Config.GlobProblemsExact | config.go:108-111 | The glob errors name exactly the names that contain '*', and there are none exactly when no name contains '*' |
| Config.GetBool | config.go:47-59 | A lookup gives the flag's value and no error, or false and the lookup's error |
| Config.ExpandFor | config.go:61-75 | In newfile mode oldfile is read, a true oldfile is a clash, and the names are validated as pairs; otherwise the default expansion's names and errors are taken |
| Config.NewfileModeMeaning | config.go:61-71 | In newfile mode the clash is reported exactly when oldfile reads true, and oldfile's lookup error exactly when that lookup fails. There are no problems exactly when oldfile reads false and the arguments form whole pairs with no '*' |
| Config.DefaultModeMeaning | config.go:72-75 | In the default mode the only problems are the patterns that failed to glob, so there is neither a clash nor an oldfile error, and there are none exactly when every pattern globbed |
| Config.ProblemsMeaning | config.go:42-78 | The clash is reported exactly when both mode flags read true, and oldfile's lookup error exactly when oldfile is read in newfile mode and its lookup fails. A parse has no problems exactly when every lookup succeeds, oldfile is false in newfile mode, and the names pass their mode's check |
| Config.ParseFlags | config.go:42-78 | quiet and keepdate are true exactly when their flags read true. The mode is newfile exactly when the newfile flag reads true, otherwise default. The files are the arguments in newfile mode and the glob matches otherwise. The errors are those ProblemsMeaning characterises |

## Left out

- main.go: opening, creating, renaming and time-stamping files, and the bufio wiring, are I/O and not part of this model. In this model the `quiet` and `keepdate` settings are only parsed: `keepdate` feeds main.go's time-stamping (`os.Chtimes`), which is left out, and `quiet` is not read anywhere.
- `defaultBufferSize` (constants.go:39) only sizes main.go's bufio buffers, so it has no counterpart here. Its comment says 32KB while the value is 64KB.
- `expandFilesDefault` (config.go:80-98) calls `filepath.Glob` against the file system. Its result is a parameter of `ParseFlags`: the matched names and the patterns Glob rejected.
- pflag and cobra: each `GetBool` lookup is a value, either the flag's boolean or a failure. Error message texts are kept only as comments on `Problem`.
- Stream.Write: a writer either accepts all bytes of a call or fails with none recorded. A writer that returns n < len without an error breaks the `io.Writer` contract and is not modelled. Bytes a failing call may have written in part are not modelled either; filter.go does not count them.
- Stream.Read: a read error comes with no bytes. filter.go discards any bytes that come with an error, so the output is the same.
- Filter.RunSound: for the as-written loop it is stated only for readers whose every read fills the buffer as far as the input goes, or fails (`strings.Reader`, and such a reader with read errors). A reader that returns a short read, an empty read without error, or bytes together with io.EOF can make the as-written loop miss the oracle; see Findings.
- Theorems.WriteErrorsOnly: stated for `strings.Reader`-like sources only, where no read can fail; `Theorems.FullReadsSound` covers readers that fill the buffer and may fail.
- Stream.Source: the plan of unusual replies is finite, so a reader that returns no bytes and no error forever is not modelled; filter.go never returns on such a reader. "Any reader" in `Theorems.CorrectedTranscodes` means any reader with finitely many unusual replies.
- The benchmark, the fuzz target and `TestSourceFile` (a 39816-byte embedded text) are outside the model. What they check is stated for every input by `Theorems.TranscodesFullReads` and `LineEndings.LengthLaw`.
- Integer widths: counts are unbounded integers. They never exceed the input length, which a Go `int` holds.

## Findings

| source | as written | input that shows it | evidently intended | confidence | as-written member | corrected member |
|---|---|---|---|---|---|---|
| filter.go:66-70 | A CR is held back only when it sits in byte 7 of the buffer. After a short read the last valid byte is elsewhere, so a CR ending a short read is written at once, and the LF of the next read cannot delete it | The input "\r\n" from a reader whose first call returns 1 byte gives "\r\n", not "\n". Also: seven zero bytes and "\r\n", read as 8 bytes, then an empty read, then the rest | Hold back a CR in the last filled byte, so the output is strings.ReplaceAll for any reader | not executed | Findings.ShortReadKeepsPair | Findings.ShortReadCorrected |
| filter.go:52-54 | The loop leaves on io.EOF without looking at the bytes the same call returned, which io.Reader allows | A reader returning "a" together with io.EOF: nothing is written, the count is 0 and the error is nil | Convert the bytes returned with io.EOF before leaving the loop | not executed | Findings.EofDataDropped | Findings.EofDataKept |

The corrected loop (`Chunk.Variant.Corrected`) is proved for every reader by
`Theorems.CorrectedTranscodes` and `Theorems.CorrectedShortReads`. For
`strings.Reader`, which always fills the buffer and never returns data with
io.EOF, the two variants write the same bytes to a writer that accepts every
call, and `Theorems.TranscodesFullReads` proves the as-written loop correct.
To a writer that refuses a call they can differ: on the input "\r" the
as-written loop writes the CR in its one turn, while the corrected loop
carries it and writes it in the final flush, one call later. In the program
itself, main.go hands dos2unix64 a `bufio.Reader`, whose Read can return fewer bytes
than asked for.
