# vor — a Dafny model of the recording server's pipeline and the generator's script checks

vor collects voice recordings from a telephony callback. Its server
(`vorserve`) receives a phone number and an ordered list of segment URLs,
downloads every segment, checks that they share one PCM format, concatenates
them in URL order, encodes the result as one WAV stream and stores it under
an anonymised name. Its generator (`vorgen`) turns a question script into a
call-flow document; its configuration package defines `validate`, the checks
a script should pass, although the program never calls it (loading a script
only decodes its JSON).

This project models, as pure Dafny functions over immutable values:

- `Processing` — `processRequest` and its stages: the fetch fan-out with
  index-addressed result slots and lowest-index error, the format check and
  ordered concatenation of the merge (both as a reference function and as
  the source's in-place loop), the stored-name construction and the store
  call. The pipeline returns the status code together with the trace of
  steps it took (fetches, merge, encode, store), so that "nothing is fetched
  on a 400" and "the store is called once, last" can be stated.
- `Hash` and `Base64Url` — `generateID`: the salt-length precondition, the
  digest of salt followed by phone, and the padded URL-safe base64 encoding
  of section 5 of RFC 4648, with a strict decoder (padding bits must be
  zero, section 3.5) and the round trip in both directions.
- `Decimal` — `strconv.FormatInt(n, 10)`, used for the timestamp in the name,
  with a parser that accepts only canonical digits and the round trip in
  both directions.
- `Data` — `NewStorage`: the `https://` test and the hand-off to the folder backend.
- `Config` — `checkLang`, `validate` and `Default`.
- `Twillio` — the document types and `(*Project).Add`.

Collaborators that do I/O or live in libraries are fields of `Server` or
parameters: the download-and-decode of one URL (`Fetcher`, a fixed function
of the URL for the duration of one request), the WAV encoder (`Encoder`),
`Storage.Store` (`Storer`), SHA3-512 (`Hasher`, any function to 64-byte
digests), the clock (the `now` parameter) and the folder backend's
start-up self-test (`FolderSelfTest`). The salt is a `Salt`, a byte string
of at least 32 bytes, which is what `vorserve/main.go:50-52` guarantees
before serving starts; `GenerateID` itself keeps the source's precondition.
Go strings that only feed the hash (salt, phone) are byte sequences; names,
URLs and script texts are Dafny strings.

Behaviour of the source worth knowing:

- the merge errors name the property that differs (channels, sample rate,
  bit depth) but not the segment index; the reported property is the first
  differing one of the first mismatching segment;
- `processRequest` does not reject an empty phone number (the HTTP handler
  does), so `ProcessRequest` accepts any phone;
- the storage specifier is not parsed for `file:` or `s3:`: anything without
  `https://` in it is used verbatim as a folder path, and the object-store
  backend is never chosen.

## Model

| member | source | states |
|---|---|---|
| Processing.ProcessRequest | vorserve/processing.go:18-52 | an empty URL list answers 400 with no step taken; otherwise every URL is fetched (the trace lists the fetches in URL order) before any other step, and the answer is 200 or 500, never 400; merging is only reached with a non-empty segment list, so the unguarded `data[0]` is safe on this path |
| Processing.OkIffEveryStageSucceeds | vorserve/processing.go:18-52 | 200 exactly when the URL list is non-empty, every fetch succeeds, all segments agree with segment 0, the encoder accepts the URL-ordered recording and the store accepts it under the derived name |
| Processing.FetchFailureStopsRequest | vorserve/processing.go:27-31 | one failed download gives 500 after all downloads, with nothing merged, encoded or stored |
| Processing.MismatchStopsRequest | vorserve/processing.go:33-37 | segments that disagree in format give 500 after the merge step, with nothing encoded or stored |
| Processing.EncodeFailureStopsRequest | vorserve/processing.go:39-43 | a failed encoding gives 500 with nothing stored; the encoder was given segment 0's format with all samples in URL order |
| Processing.StoreCalledOnce | vorserve/processing.go:45-51 | after a successful encoding the store is called exactly once, as the last step, with the encoded bytes under `<id>_<timestamp>.wav`; 200 iff it succeeds, else 500 |
| Processing.NoStoreBeforeEncode | vorserve/processing.go:27-43 | unless every fetch, the format check and the encoding succeed, no store step is taken at all |
| Processing.StoreOnlyAfterEncode | vorserve/processing.go:27-51 | any store step is the last step and is preceded by a merge step and an encode step |
| Processing.TwoSegmentScenario | vorserve/processing.go:18-52 | two mono 8000 Hz 16-bit segments of 4000 and 6000 samples give 200, one store, and a recording of 10000 samples in that format |
| Processing.RunFetchTasks | vorserve/processing.go:56-70 | whatever order the download tasks finish in, after the join slot i holds the outcome of fetching `urls[i]`, so the slots are exactly the ones `Gather` scans |
| Processing.FirstError | vorserve/processing.go:72-76 | finds the lowest-index failed slot, or none exactly when every slot succeeded |
| Processing.Gather | vorserve/processing.go:56-79 | succeeds iff every fetch succeeds, then with one buffer per URL, slot i being the fetch of `urls[i]`; otherwise fails with the error of the lowest-index failed fetch |
| Processing.GatherIsSegments | vorserve/processing.go:56-79 | when every fetch succeeds, gathering yields exactly the decoded segments in URL order |
| Processing.FirstDifference | vorserve/processing.go:114-122 | a segment is reported as differing in channels, else in sample rate, else in bit depth, exactly when that is the first property that differs from segment 0 |
| Processing.FirstMismatchFrom | vorserve/processing.go:111-122 | finds the first segment index that disagrees with segment 0, or none exactly when all agree |
| Processing.Merge | vorserve/processing.go:109-127 | succeeds iff every later segment has segment 0's channel count, sample rate and bit depth, then with segment 0's format and all samples concatenated in input order; otherwise reports the first difference of the first mismatching segment; a single segment comes back unchanged |
| Processing.MergeWaveBuffers | vorserve/processing.go:109-127 | the source's loop agrees with `Merge`; on success it returns segment 0 grown in place, and on a mismatch at index k segment 0 has already been grown by segments 1..k-1 |
| Processing.FlattenAppend | vorserve/processing.go:123 | concatenating the samples of two lists of segments is the concatenation of each list's samples |
| Processing.FlattenIndex | vorserve/processing.go:123 | sample i of segment j lands right after all samples of the segments before j |
| Processing.SaveToStorage | vorserve/processing.go:145-153 | the stored name is the 88-character identifier, `_`, the decimal timestamp (canonical digits, no leading zero, which parse back to the clock value) and `.wav`; it contains no `/`; the store is asked once with that name and the bytes |
| Processing.StoredName | vorserve/processing.go:150 | the name starts with the identifier, then `_`, then a canonical decimal (no leading zero, no `-0`) that parses back to the timestamp, then `.wav`; it has no `/` when the identifier has none |
| Processing.StoredNameInjective | vorserve/processing.go:150 | with identifiers of one length, two names are equal exactly when identifiers and timestamps both are: collisions need the same caller at the same nanosecond |
| Hash.GenerateID | vorserve/hash.go:9-17 | requires a salt of at least 32 bytes; the identifier is 88 characters from the URL-safe alphabet or `=`, has no `/` or `+`, and decodes to the digest of salt followed by phone; it is the only text that decodes to that digest, so the padding bits are zero as the encoder writes them |
| Hash.SameIDIffSameDigest | vorserve/hash.go:13-17 | two phones get the same identifier exactly when their salted inputs have the same digest |
| Hash.IDEndsInPadding | vorserve/hash.go:16-17 | the identifier ends in `==`, as a 64-byte digest leaves one byte in the last quantum |
| Base64Url.Encode | vorserve/hash.go:17 | the encoding has length 4 * ceil(n / 3) and uses only the URL-safe alphabet and `=` |
| Base64Url.ValueOf | vorserve/hash.go:17 | an alphabet character has a 6-bit value which maps back to it; no other character has one |
| Base64Url.DecodeEncode | vorserve/hash.go:17 | decoding an encoding gives back the input bytes |
| Base64Url.EncodeDecode | vorserve/hash.go:17 | a text that decodes is the encoding of the bytes it decodes to: non-zero padding bits and any other second spelling are refused |
| Base64Url.OnlyEncodingDecodes | vorserve/hash.go:17 | the encoding of a byte string is the only text that decodes to it |
| Base64Url.DecodeInjective | vorserve/hash.go:17 | two texts that decode give the same bytes exactly when they are the same text |
| Base64Url.EncodeInjective | vorserve/hash.go:17 | different byte strings have different encodings |
| Base64Url.EncodeAvoidsSlashAndPlus | vorserve/hash.go:17 | an encoding never contains `/` or `+` |
| Base64Url.EncodeEndsInTwoPads | vorserve/hash.go:17 | an input of length 3k + 1 encodes to text ending in `==` |
| Decimal.Digits | vorserve/processing.go:150 | the digits are non-empty, all decimal digits, without a leading zero |
| Decimal.DigitsValueOfDigits | vorserve/processing.go:150 | the digits read back as the number |
| Decimal.FormatInt | vorserve/processing.go:150 | a negative number is a minus sign and digits not starting with `0`, any other number canonical digits only (no leading zero) |
| Decimal.FormatIntRoundTrip | vorserve/processing.go:150 | parsing the decimal text gives back the number |
| Decimal.FormatIntOfParse | vorserve/processing.go:150 | any text the parser accepts is exactly what is written for the number it denotes, so `0042` or `-0` are never read as timestamps |
| Decimal.FormatIntHasNoSlash | vorserve/processing.go:150 | a written number never contains `/` |
| Decimal.FormatIntInjective | vorserve/processing.go:150 | two timestamps are written the same exactly when they are equal |
| Data.IndexFrom | vorserve/data/data.go:15 | finds an occurrence at or after a position with none between the position and it, or none when there is none |
| Data.Contains | vorserve/data/data.go:15 | true exactly when the text occurs at some position |
| Data.NewStorage | vorserve/data/data.go:14-19 | a specifier containing `https://` anywhere is refused with "s3 storage not yet implemented"; any other yields a folder backend on exactly that path when the self-test passes, or the self-test's failure |
| Data.NeverS3 | vorserve/data/data.go:14-19 | the object-store backend is never chosen |
| Data.FilePrefixKept | vorserve/data/data.go:14-19 | `file:/x` becomes a folder literally named `file:/x` |
| Data.HttpsInsideRefused | vorserve/data/data.go:15-17 | `https://` in the middle of the specifier is refused as well |
| Config.FindLanguage | vorgen/config/config.go:142-146 | the scan finds a language exactly when it is in the list |
| Config.CheckLang | vorgen/config/config.go:141-148 | succeeds exactly when the language is `en-US` or `nb-NO`, otherwise reports that language as unknown |
| Config.FirstEmptyThread | vorgen/config/config.go:133-137 | finds the lowest index of an empty thread, or none when all are non-empty |
| Config.Validate | vorgen/config/config.go:120-139 | passes exactly when the language is known, both start texts are non-empty and there is at least one thread and no empty one; otherwise names the first failing check in the order language, start message, reply, threads, first empty thread (by index) |
| Config.ValidateIgnoresOtherFields | vorgen/config/config.go:120-139 | the bad-reply and thanks texts, desired time, webhook, silence timeout and number of variations do not affect validation |
| Config.Default | vorgen/config/config.go:78-101 | the Norwegian example script passes validation |
| Twillio.Add | vorgen/twillio/types.go:30-36 | the description is unchanged and the states become the old states (none for a nil list) followed by the new state: one longer, the new one last, the earlier ones unchanged and in order, never nil |
| Twillio.AddAll | vorgen/twillio/types.go:30-36 | adding states one by one appends them in order after the existing ones |

## Left out

- `getWaveBuffer` (vorserve/processing.go:83-105): HTTP download and WAV decoding are I/O and library code; a `Fetcher` parameter returns a buffer or an error per URL.
- The goroutines and wait group of `gatherWaveBuffers`: modelled as tasks finishing in an arbitrary order over indexed slots (`RunFetchTasks`) followed by a sequential scan.
- `writeWaveFile` (vorserve/processing.go:130-141): the WAV encoder is an `Encoder` parameter that may fail.
- SHA3-512: a `Hasher` parameter returning 64 bytes; its cryptographic properties are not modelled.
- `time.Now().UnixNano()`: the `now` parameter.
- Random salt generation and the start-up salt check (vorserve/main.go:41-52): only their outcome, a salt of at least 32 bytes, is modelled.
- Data.NewStorage: the folder self-test's failures are all returned as errors, but the source calls `f.Name()` before checking the temporary-file error (vorserve/data/folder.go:27-30), so a folder where no temporary file can be created panics instead; the model abstracts that panic into an error, because the self-test is an opaque parameter.
- The folder and object-store backends (vorserve/data/folder.go, vorserve/data/s3.go): file system and network I/O; the folder self-test is a parameter.
- HTTP form parsing and JSON decoding of the URL list (vorserve/http.go), including its empty-phone check.
- Flags, logging, `os.Exit` and help text (vorgen/main.go, vorserve/main.go, vorserve/help.go).
- `LoadConfig` and `Config.String`: JSON decoding and encoding. `LoadConfig` does not call `validate`.
- The debug `println` calls and the unused `size` accumulator in `mergeWaveBuffers`; they do not affect the result.
- Error message texts of `validate`, `gatherWaveBuffers` and `mergeWaveBuffers`: errors are constructors (with the thread index, the fetch error, or the differing property); their wording is not modelled. Go's `errgo.Mask` wrapping is treated as passing the error through.
- Fetcher: a URL that occurs twice in one request is taken to download to the same result both times.
- Config: a nil and an empty slice (of threads, or of questions in a thread) are both the empty sequence, since `validate` rejects both alike.
- Twillio: the document types other than `Project` and `State` are carried as data only; JSON encoding of the document is not modelled.
