# WaxDeck verification

A Dafny model of the self-contained codecs, state machines and small concurrent protocols of WaxDeck, with proofs of
what they promise. One module stands for one component; code that changes things step by step is a method or a class
proved against a specification function, and what the program promises is then proved of that function, or of whole runs.

- **PNG codec and image kernels** (`tools/generate-brand.py`): `PngFilter`, `PngScanlines`, `PngContainer`, `PngDecode`,
  `PngEncode`, `PngRoundTrip`, `Grid`, `BoxBlur`, `Resize`. The encoder is read back twice, by the generator's own
  lenient decoder and by a strict reader written from RFC 2083.
- **Radio relay** (`icy.go`, `radiosegment.go`, the loop of `ServeRadio`): `IcyRelay`, `IcyFields`, `Utf8`, `IcyText`,
  `RadioSegment`, `RadioRelay`.
- **Spec bundler** (`specbundle/main.go`): `SpecCarve`, `SpecBundle`, `SpecAssemble`, `SpecMerge`,
  `SpecDocument`.
- **WAVE reader and growable in-memory files** (`wav.go`, `mediaprobe.go`, `fixtures.go`): `WavReader`, `MemFile`.
- **Enclosure routes, warmers and relays** (`enclosureroutes.go`, `enclosure.go`): `EnclosureRoutes`,
  `EnclosureProtocol`, `EnclosureRelay`. Every mutex-held method is one atomic step; upstream answers are inputs.
- **Cron floors and the task event stream** (`main.go`, `schedules.go`, `admin.go`): `CronScheduler`, `TaskStream`.
- **Embedding statistics** (`embed.go`): `MelBank`, `MelStatistics`, `Embedding`, over real numbers.

Where the code and what is said about it part ways, the model follows the code:

- The scheduler's comments say that a delayed firing is caught up and not lost. `DueSchedule` measures from the later of
  the last check and the last run, and a run is marked when it ends; so a firing after the tick that began a run and no
  later than that run's mark is never answered. `NothingLostUnlessSwallowed` says exactly when every firing is answered,
  `AnsweredUnlessSwallowed` which are, and `FiringsAreLost` gives one that is not.
- `mergeDocs` remembers a component as kind, slash, name, and so refuses two different components where a kind holds a
  slash (`SlashedKindsClash`). No kind of a loaded fragment does, so for those the refusal is exact (`LoadedMerge`).
- A write behind the start of an in-memory file makes the original panic. The model asks of a run that it makes none
  (`Safe`), which follows where no write comes after a refused seek (`HeededIsSafe`).

Time is an integer input, floating point is real arithmetic, and zlib, CRC-32, JSON, the FFT, the square root,
logarithms, the ad-insertion words, audio type lists and origins are parameters; a law needed of one of them (such as
that decompressing undoes compressing) is a named precondition.

## Model

| member | source | states |
|---|---|---|
| PngFilter.ReconstructionUnique | tools/generate-brand.py:155-178 | RFC 2083's reconstruction rule, with its own predictors, has one solution: two rows that satisfy it for the same filter, residuals and row above are the same row |
| PngFilter.PredictorsAreStandard | tools/generate-brand.py:155-178 | for each of the five filters the program's prediction is the one byte section 6 of RFC 2083 allows: for Average the floored mean, for Paeth the first of left, above and corner nearest to left plus above less corner |
| PngFilter.FilterReconstructs | tools/generate-brand.py:273-308 | what the writer emits for a row is turned back into it by the standard's rule |
| PngFilter.OutcomeIsStandard | tools/generate-brand.py:155-178 | a row is undone exactly where the filter is known and the loop stays inside the row, and then to the row the standard's rule gives |
| PngFilter.UnfilterRowReconstructs | tools/generate-brand.py:155-178 | the row the reader rebuilds satisfies the standard's reconstruction rule at every byte |
| PngFilter.RowRoundTrip | tools/generate-brand.py:273-308 | for all five filters, any row and any row above, unfiltering the filtered row gives the row |
| PngFilter.Unfilter | tools/generate-brand.py:155-178 | the in-place reconstruction leaves the row that filter determines, or raises for an unknown filter or a row cut short, exactly then |
| PngFilter.UnfilterPaeth | tools/generate-brand.py:168-176 | the in-place Paeth loop, which reads bytes it has itself rewritten, gives the reconstructed row |
| PngScanlines.BestKindIsCheapest | tools/generate-brand.py:270-295 | the filter a row takes scores no higher than any other candidate and strictly lower than every candidate before it |
| PngScanlines.RowsTakeCheapest | tools/generate-brand.py:273-295 | every row of the stream takes, against the row above it, the first of the cheapest of None, Sub, Up and Paeth |
| PngScanlines.ScoreIsDistance | tools/generate-brand.py:267-270 | a row costs the sizes of its residuals as signed bytes, added up |
| PngScanlines.StreamRoundTrip | tools/generate-brand.py:139-152 | reading any filtered stream gives its rows back, whichever filter each row took |
| PngScanlines.ReaderIsStandard | tools/generate-brand.py:130-152 | on a stream of full length the rows read are those the stream holds by the standard's rule, and no others |
| PngScanlines.CheapestFilter | tools/generate-brand.py:284-294 | scoring the four candidates picks the first of the cheapest and emits that filter's row |
| PngScanlines.PaethRow | tools/generate-brand.py:298-308 | the padded-slice Paeth candidate is the row filtered by Paeth |
| PngScanlines.FilterScanlines | tools/generate-brand.py:273-295 | the adaptive stream of a buffer: each row by its cheapest filter against the row before it |
| PngContainer.WalkReadsChunks | tools/generate-brand.py:107-118 | on bytes that are a list of well-formed chunks the lenient walk sees exactly those chunks |
| PngContainer.ParseReadsChunks | tools/generate-brand.py:181-187 | written chunks are valid under section 3.2 of RFC 2083, checksums included, and parse to the same list |
| PngContainer.HeaderRoundTrip | tools/generate-brand.py:112 | the header's fields read back, each from where section 4.1.1 of RFC 2083 puts it |
| PngContainer.BigEndian | tools/generate-brand.py:109-112 | integers are read most significant byte first |
| PngContainer.WalkFile | tools/generate-brand.py:107-118 | the offset walk over the whole file is the walk over what is ahead, errors and early end included |
| PngDecode.ReadImageRows | tools/generate-brand.py:130-152 | the row loop with its carried row above gives the pixels of every row, or the error of the first bad one |
| PngDecode.WidenRow | tools/generate-brand.py:142-150 | three-byte pixels come out with full alpha; a short row raises |
| PngDecode.OpaquePixel | tools/generate-brand.py:142-150 | each pixel of a widened row is its own three bytes and full alpha |
| PngDecode.Decode | tools/generate-brand.py:97-152 | the whole decoder, with every refusal in its place |
| PngEncode.MaskPixels | tools/generate-brand.py:236-240 | in-place masking leaves six bits of red, green and blue and every alpha as it was |
| PngEncode.MaskedIsMask | tools/generate-brand.py:205-240 | the mask is a bitwise and with the top six bits |
| PngEncode.PosterisedPixel | tools/generate-brand.py:236-240 | each pixel keeps its alpha and the masked red, green and blue |
| PngEncode.CountColours | tools/generate-brand.py:219-227 | numbers distinct pixels by first appearance, and passes 256 exactly when the image has more than 256 |
| PngEncode.SeenGrows | tools/generate-brand.py:219-227 | colours are numbered as they come: the first pixels' colours have the first numbers |
| PngEncode.NumberPixels | tools/generate-brand.py:246-249 | one byte a pixel, its number in the palette |
| PngEncode.EncodeTruecolour | tools/generate-brand.py:233-241 | the truecolour file of the masked pixels |
| PngEncode.EncodePalette | tools/generate-brand.py:244-264 | the palette file, transparency cut after its last entry that is not opaque and left out where all are |
| PngEncode.Encode | tools/generate-brand.py:208-230 | a palette file for at most 256 colours, a truecolour file otherwise |
| PngRoundTrip.TruecolourRoundTrip | tools/generate-brand.py:97-241 | decoding the truecolour file of any image gives the image with red, green and blue masked to six bits and alpha unchanged |
| PngRoundTrip.DecodesStandardFile | tools/generate-brand.py:97-152 | the decoder reads any 8-bit RGB or RGBA file, split image data and unknown chunks included: its pixels are those of the rows the image data holds by the standard's rule |
| PngRoundTrip.DecodeRefuses | tools/generate-brand.py:119-130 | a header is refused exactly where it is not 8-bit, not interlaced, RGB or RGBA; then image data is refused exactly where it does not decompress |
| PngRoundTrip.DecodeNeedsHeader | tools/generate-brand.py:104-120 | what does not begin as a PNG is refused, and so are chunks without a header before the end |
| PngRoundTrip.HeaderLengthMatters | tools/generate-brand.py:111-112 | a header of any length but thirteen is refused |
| PngRoundTrip.TruecolourIsStandard | tools/generate-brand.py:190-241 | a strict RFC 2083 reader gets the posterised image from the truecolour file |
| PngRoundTrip.PaletteIsLossless | tools/generate-brand.py:244-264 | a strict RFC 2083 reader gets every pixel, alpha included, exactly back from the palette file |
| PngRoundTrip.EncodedIsStandard | tools/generate-brand.py:208-230 | whatever is chosen, the file is standard and holds the image, posterised only past 256 colours |
| PngRoundTrip.EncodeAnswers | tools/generate-brand.py:190-264 | encoding fails for an image without width, and else only for a size past 32 bits |
| BoxBlur.Slide | tools/generate-brand.py:525-526 | one value in and one out turns a window's sum into the next window's, at clamped edges too |
| BoxBlur.BlurRow | tools/generate-brand.py:519-526 | the running sum leaves at each cell of the row the floored mean of its clamped window, and no other cell changed |
| BoxBlur.Blurred | tools/generate-brand.py:510-535 | each output is the floored vertical mean of floored horizontal means over clamped windows |
| BoxBlur.BlurIsNaive | tools/generate-brand.py:510-535 | a blurred cell is the floored mean, over the rows around it, of the floored means across each, positions past an edge taking the edge's value |
| BoxBlur.BlurStaysBetween | tools/generate-brand.py:510-535 | the blur stays within the channel's own bounds |
| BoxBlur.BlurRadiusZero | tools/generate-brand.py:510-535 | radius nought is no blur |
| Resize.SpanInside | tools/generate-brand.py:382-388 | every span is non-empty and inside the source, up or down |
| Resize.SpansPartition | tools/generate-brand.py:382-388 | on a downscale every source position lies in exactly one span |
| Resize.SpansEven | tools/generate-brand.py:382-388 | a span begins at its share of the source rounded down; going down all are equally long give or take one, going up one long |
| Resize.SpansOrdered | tools/generate-brand.py:382-388 | on a downscale spans come in order without overlap |
| Resize.ResizeAcross | tools/generate-brand.py:338-359 | the first pass: every cell the floored mean along its row's span |
| Resize.ResizeDown | tools/generate-brand.py:360-379 | the second pass: every cell the floored mean down its column's span |
| Resize.ResizeImage | tools/generate-brand.py:327-379 | area averages of area averages, and a copy at the image's own size |
| Resize.ResizeIsNaive | tools/generate-brand.py:327-379 | a resized cell is the floored mean down its span of rows of the floored means along its span of each |
| Resize.ResizeStaysBetween | tools/generate-brand.py:327-379 | a resize keeps each channel within the source's bounds, so a flat one as it is |
| Resize.Source.constructor | tools/generate-brand.py:400-405 | the halving chain ends, and each level is the one before it halved |
| Resize.Source.Output | tools/generate-brand.py:407-416 | an output comes from the last level at least twice its size, is made once and is the same ever after |
| Resize.OutputStaysBetween | tools/generate-brand.py:391-416 | every output keeps each channel within the crop's bounds, however many levels it came through |
| IcyRelay.StepSound | server/internal/api/icy.go:14-64 | between bytes exactly one of audio, length byte and block is awaited, and a block is whole sixteens of at most 4080 bytes |
| IcyRelay.RunSplits | server/internal/api/icy.go:33-64 | where a read ends makes no difference to events or state |
| IcyRelay.NothingLost | server/internal/api/icy.go:33-64 | on any bytes whatever, what is pending plus what came in is the wire form of what went out plus what is pending after |
| IcyRelay.Deinterleaves | server/internal/api/icy.go:33-64 | de-interleaving inverts interleaving, each run of audio and each block in its place, empty blocks included |
| IcyRelay.ReadsDeinterleave | server/internal/api/icy.go:33-64 | under every split into reads, the emitted bytes are exactly the audio and the calls exactly the blocks, in order |
| IcyRelay.Relay.Feed | server/internal/api/icy.go:33-64 | the chunked walk over one read ends and does what a walk byte by byte does, with no run of audio empty or in two pieces |
| IcyRelay.GroupedEmits | server/internal/api/icy.go:33-64 | what one read emits is its longest runs of audio, one emit each |
| IcyFields.IcyValue | server/internal/api/icy.go:79-107 | the search ends, and finds the value at the first anchored place and no later one |
| IcyFields.AnchorsInField | server/internal/api/icy.go:79-115 | inside a printed field a quiet key can begin only at the front, and only if it is the name |
| IcyFields.PrintedValueReadsBack | server/internal/api/icy.go:79-115 | from printed fields, gaps of any separators between them, the last semicolon there or not, and padding, the value of the first field so named comes back, even where other names end in the key |
| Utf8.EncodeDecode | server/internal/api/icy.go:120-139 | what runes spell is well formed UTF-8 (RFC 3629 section 4) and decodes to them |
| Utf8.DecodeEncode | server/internal/api/icy.go:120-139 | a well-formed string is spelled by its runes and nothing else |
| Utf8.PartialRuneInvalid | server/internal/api/icy.go:122-128 | no proper part of a rune's spelling is well formed |
| IcyText.ReadText | server/internal/api/icy.go:120-139 | the cap, the trimming loop, the Latin-1 fallback and the final trim |
| IcyText.TrimIs | server/internal/api/icy.go:139 | trimming takes all the white space off either end and nothing else |
| IcyText.TrimKeeps | server/internal/api/icy.go:139 | a text with no white space at its ends stays as it is; one trimmed to nothing held nothing else |
| IcyText.WellFormedText | server/internal/api/icy.go:120-139 | a well-formed value reads as its longest whole-rune prefix within the cap, never as Latin-1, at most three bytes dropped |
| IcyText.FittingIsLongest | server/internal/api/icy.go:120-128 | that prefix fits, and one rune more would not |
| IcyText.CutIsNear | server/internal/api/icy.go:120-128 | the cut is a prefix at most three bytes short of the cap |
| IcyText.Latin1Text | server/internal/api/icy.go:129-138 | a value not well formed after the cut gives one rune for every byte left |
| RadioSegment.ReportsAreExact | server/internal/api/radiosegment.go:20-62 | over any run the reports are exactly the closed maximal plays of the minimum length, in order, none overlapping, the open tail never |
| RadioSegment.OnlyCountingMatters | server/internal/api/radiosegment.go:39-50 | idents and picture-only blocks change nothing |
| RadioSegment.ReportsAreDisjoint | server/internal/api/radiosegment.go:39-62 | in time order, each report begins at least the minimum listen after the one before it |
| RadioSegment.Segment.Observe | server/internal/api/radiosegment.go:39-50 | one block advances the segment and reports as the run does |
| RadioRelay.PrintedMeta | server/internal/api/icy.go:176-209 | of any printed block: the first title's text and whether there is one, the picture named outright before the one guessed at, a spot exactly where the first of either marker says so, and so when the block names a song |
| RadioRelay.PrintedTitle | server/internal/api/icy.go:120-209 | a UTF-8 title that fits comes through whole but for white space at its ends, which goes, and announces a song unless it is white space only or the block is a spot |
| RadioRelay.ObservedIsStream | server/internal/api/integrations.go:571-588 | the blocks observed are the stream's own, in order, whatever the reads |
| RadioRelay.ObservedAt | server/internal/api/integrations.go:571-588 | a block is observed at the instant of the turn that finished it, behind all before |
| RadioRelay.Carry | server/internal/api/integrations.go:534-588 | one read's calls: as many runs of audio written as the listener takes and none behind the one that fails, failed exactly where there are more, blocks observed all the same |
| RadioRelay.ServeRadio | server/internal/api/integrations.go:597-645 | the loop stops at the first turn the guard stops, a write fails in or the stream ends in, for that reason and no earlier; it sends exactly the audio up to there and reports the run's plays |
| RadioRelay.TakenIsPrefix | server/internal/api/integrations.go:535-540 | what a listener takes of a read is a beginning of its audio |
| SpecCarve.Carve | server/cmd/specbundle/main.go:278-300 | the index walk gives the prefix and sections of the lines |
| SpecCarve.CarveLosesLittle | server/cmd/specbundle/main.go:278-320 | the lines are the prefix and then, for each section, its key line, its body and blank lines, and nothing else |
| SpecCarve.SectionKeyReadsBack | server/cmd/specbundle/main.go:306-313 | the key of a plain key line is the key |
| SpecCarve.SectionKeyIgnoresComment | server/cmd/specbundle/main.go:302-313 | and so it is behind trailing white space, and behind a comment set off by some |
| SpecCarve.IndentTells | server/cmd/specbundle/main.go:281-284 | a line is a key line at its own indent and no other, and a comment at none |
| SpecCarve.SectionsConcat | server/cmd/specbundle/main.go:278-300 | sections side by side carve to both lists of sections |
| SpecCarve.CarveBefore | server/cmd/specbundle/main.go:278-300 | what stands before a key line carves as it would alone |
| SpecBundle.LoadFragment | server/cmd/specbundle/main.go:166-228 | loading a fragment, each refusal and the cross-check against its document |
| SpecBundle.LoadIs | server/cmd/specbundle/main.go:166-228 | loading succeeds exactly where every carved section and kind is known and not empty, nothing stands before a key and the document has nothing that was not carved; it keeps the whole body of the last paths section and of each kind's last section |
| SpecBundle.LoadedFragments | server/cmd/specbundle/main.go:166-228 | every body of a loaded fragment ends in content, is made of whole lines and holds no key line where it will stand; whatever its document has was carved |
| SpecAssemble.Assemble | server/cmd/specbundle/main.go:395-443 | the text is the banner, root, paths and components lines, each with its line break |
| SpecAssemble.BundleCarvesBack | server/cmd/specbundle/main.go:395-443 | the bundle carves to the root's sections, the paths, the components; the components body carves to the kinds in order, each the fragments' bodies joined by one blank line |
| SpecAssemble.BundleLoadsBack | server/cmd/specbundle/main.go:166-443 | printing and loading: the sections the assembler prints of some loaded fragments load as one fragment with their bodies, joined, and nothing else |
| SpecAssemble.FragmentLoadsBack | server/cmd/specbundle/main.go:166-443 | one fragment printed and loaded again is the fragment it was |
| SpecAssemble.PathsInOrder | server/cmd/specbundle/main.go:400-404 | the paths bodies are in fragment order |
| SpecAssemble.KindInOrder | server/cmd/specbundle/main.go:405-409 | and so are the bodies of a kind |
| SpecAssemble.BundleTextCarvesBack | server/cmd/specbundle/main.go:395-443 | the same of the text: split at line breaks it is the bundle's lines, and carves to those sections |
| SpecAssemble.KindLinesCarve | server/cmd/specbundle/main.go:417-424 | the components body holds no key at the top and carves at two spaces to its kinds |
| SpecMerge.MergeDocs | server/cmd/specbundle/main.go:333-390 | merging succeeds exactly where shapes are mappings and no path or component id is defined twice; then it is the union, else the error names fragments at fault, and where it names one twice two of its components clash |
| SpecMerge.MergeComponents | server/cmd/specbundle/main.go:357-381 | one fragment's components, in whatever order its map is walked |
| SpecMerge.MergeIsUnique | server/cmd/specbundle/main.go:333-390 | the merge does not depend on the order of the fragments |
| SpecMerge.DuplicatesAreReal | server/cmd/specbundle/main.go:372-379 | where no kind holds a slash, ids clash exactly where components do |
| SpecMerge.LoadedMerge | server/cmd/specbundle/main.go:333-390 | loaded fragments merge exactly where no path and no component is defined twice |
| SpecMerge.SlashedKindsClash | server/cmd/specbundle/main.go:373-376 | two different components are refused where a kind holds a slash |
| SpecDocument.BundleMeansMerge | server/cmd/specbundle/main.go:96-104 | where YAML reads block mappings compositionally and each fragment's document is what its carved bodies say, the bundle's document is the merge |
| SpecDocument.SelfCheckPasses | server/cmd/specbundle/main.go:96-104 | and so is the very document merging gives |
| MemFile.Geometric.Reserve | server/internal/analyzer/wav.go:154-171 | room within the capacity or in a new buffer of at least twice it, zeros past the old length |
| MemFile.Geometric.Write | server/internal/analyzer/wav.go:153-175 | refines a write to a sparse zero-filled file; spare capacity stays zero and copying stays within the capacity, itself at most 64 KiB or twice the length |
| MemFile.Geometric.Seek | server/internal/analyzer/wav.go:177-192 | the three seeks; a bad whence moves nothing, a negative target is refused with the position already there |
| MemFile.Exact.Write | fixtures/fixtures.go:738-747 | the exact-growth twin refines the same write |
| MemFile.Exact.Seek | fixtures/fixtures.go:749-764 | and the same seek |
| MemFile.RunBoth | server/internal/analyzer/wav.go:148-192 | on every safe run both files give the same answers and end as the same file, the growing one within its copying bound |
| MemFile.HeededIsSafe | server/internal/analyzer/wav.go:188-190 | a run in which no write follows a seek refused for its target is safe |
| MemFile.WritesJoin | server/internal/analyzer/wav.go:153-175 | writing in pieces is writing at once |
| MemFile.WriteReadsBack | server/internal/analyzer/wav.go:153-175 | what is written is there to be read, all else is as it was, and a gap holds zeros |
| MemFile.SeeksAgree | server/internal/analyzer/wav.go:177-192 | seeks from the position add up, seeks from the end count from what is written, both landing where a seek from the start would; a target is refused exactly where it is negative |
| MemFile.AppendsAtEnd | server/internal/analyzer/wav.go:177-192 | a write after a seek to the end appends; any other whence moves nothing |
| MemFile.BackPatch | server/internal/analyzer/wav.go:146-151 | a header written over leaves the body as it was |
| MemFile.EmptyWriteExtends | server/internal/analyzer/wav.go:153-175 | an empty write past the end fills the gap with zeros |
| WavReader.ParseWave | server/internal/analyzer/wav.go:28-91 | on every byte string the walk ends in bounds with the last format and data, or the error the code gives |
| WavReader.DecodePcm | server/internal/analyzer/wav.go:95-144 | each frame's mean, or a refusal exactly for encodings without a reader |
| WavReader.ChunksReadBack | server/internal/analyzer/wav.go:46-78 | word-aligned serialised chunks are read back, whatever follows them |
| WavReader.OversizedChunk | server/internal/analyzer/wav.go:50-56 | a last chunk with a placeholder length yields exactly the bytes present |
| WavReader.GatherTakesLast | server/internal/analyzer/wav.go:57-76 | the last format and the last data count, whatever unknown chunks surround them |
| WavReader.WrittenStreamParses | server/internal/analyzer/wav.go:28-91 | a stream of serialised chunks parses to its last format over its last data |
| WavReader.StreamOfSamplesParses | server/internal/analyzer/wav.go:28-144 | a whole stream of interleaved 16, 24 or 32-bit integers, whatever other chunks it has, parses to each frame's mean at its rate |
| WavReader.StreamRefused | server/internal/analyzer/wav.go:79-100 | a stream is refused exactly for want of a format, of data, of a channel or a rate, or of a reader for the encoding |
| WavReader.MalformedRefused | server/internal/analyzer/wav.go:57-76 | the first malformed format ends the walk with its own error |
| WavReader.NotRiffRefused | server/internal/analyzer/wav.go:28-34 | what is no RIFF WAVE file is refused |
| WavReader.FormatReadsBack | server/internal/analyzer/wav.go:57-73 | a format reads back whatever follows it; an extensible one takes its code from its subformat, and is refused where that is missing |
| WavReader.DecodedBetween | server/internal/analyzer/wav.go:95-144 | integer samples decode into [-1, 1] for any bytes and channel count |
| WavReader.SampleIs | server/internal/analyzer/wav.go:102-120 | a 16, 24 or 32-bit sample is its two's-complement integer over the half range, the 24-bit shifts included |
| WavReader.OtherSamples | server/internal/analyzer/wav.go:102-126 | 8-bit samples are offset by 128; floating-point ones are what their bytes spell |
| WavReader.LittleEndian | server/internal/analyzer/wav.go:46-76 | integers are read least significant byte first |
| WavReader.EncodedDecodes | server/internal/analyzer/wav.go:95-144 | interleaved integers written at 16, 24 or 32 bits decode to each frame's mean |
| WavReader.ProbeWave | server/internal/api/mediaprobe.go:42-63 | the probe stream reads back as 44100 zeros at 44100 Hz |
| EnclosureRoutes.Routes.Lookup | server/internal/api/enclosureroutes.go:75-83 | an entry answers for its own enclosure until after it expires |
| EnclosureRoutes.Routes.Remember | server/internal/api/enclosureroutes.go:89-116 | a full table loses what has expired, or everything where too little has, and then takes the entry |
| EnclosureRoutes.Routes.ClaimWarm | server/internal/api/enclosureroutes.go:129-146 | a claim is given exactly when the end is unknown, the chain is not being walked and fewer than sixteen are |
| EnclosureRoutes.Routes.Forget | server/internal/api/enclosureroutes.go:120-124 | one episode's entry is dropped and nothing else |
| EnclosureRoutes.Routes.ReleaseWarm | server/internal/api/enclosureroutes.go:148-152 | one episode's claim is given back and nothing else |
| EnclosureRoutes.StaysBounded | server/internal/api/enclosureroutes.go:89-152 | no operation passes 1024 routes or 16 walks |
| EnclosureRoutes.RememberedUntil | server/internal/api/enclosureroutes.go:75-116 | what is remembered is looked up for the TTL by that enclosure alone |
| EnclosureRoutes.KnownEndsAreNotWalked | server/internal/api/enclosureroutes.go:129-152 | a remembered end stops a claim until it expires or is forgotten, a claim stops a second until it is given back, sixteen stop any, and nothing else does |
| EnclosureRoutes.OthersKept | server/internal/api/enclosureroutes.go:89-116 | remembering one episode leaves every other lookup as it was, unless the table is full of live entries |
| EnclosureProtocol.StepKeeps | server/internal/api/enclosure.go:191-213 | every step of every relay and warmer keeps the invariant |
| EnclosureProtocol.LookupsAreFounded | server/internal/api/enclosure.go:191-213 | in every reachable state whatever a lookup returns was recorded off a full walk from that enclosure no more than the TTL ago |
| EnclosureProtocol.CeilingsHold | server/internal/api/enclosureroutes.go:11-35 | in every reachable state at most 1024 routes, at most 16 claims, and one live warmer a claim |
| EnclosureProtocol.ClaimsReleasedOnce | server/internal/api/enclosure.go:522-563 | a warmer gives its claim back exactly once, started or not |
| EnclosureProtocol.RelaysAreTransparent | server/internal/api/enclosure.go:191-213 | at most two fetches a relay, and only a walk's answer is served unfit |
| EnclosureProtocol.OnlyWalksRenew | server/internal/api/enclosure.go:489-499 | an entry appears or changes only as a finished walk is recorded |
| EnclosureProtocol.FailedEndsStayForgotten | server/internal/api/enclosure.go:196-213 | once a relay has dropped a failed end, the episode's entry, over every interleaving, is one recorded since |
| EnclosureProtocol.WarmersEnd | server/internal/api/enclosure.go:522-563 | each step of a warmer brings it nearer its end, and one holding a claim ends only by releasing it |
| EnclosureRelay.CopyBody | server/internal/api/enclosure.go:322-356 | the copy loop, over any reads, writes and bounds |
| EnclosureRelay.CleanEnds | server/internal/api/enclosure.go:322-356 | the stream ends whole exactly at the host's end with everything written, and short exactly where a write failed |
| EnclosureRelay.CopyEnds | server/internal/api/enclosure.go:322-356 | the copy ends at the first turn that does not pass, with exactly what was taken up to it, and for that turn's reason |
| EnclosureRelay.RelayEnclosure | server/internal/api/enclosure.go:178-356 | one request: the fetches made, the reply with its headers or its refused range, and the cache afterwards; a HEAD ends after the headers |
| EnclosureRelay.AudioGoesOut | server/internal/api/enclosure.go:218-356 | an answer is relayed exactly where it is 200 or 206 and its type passes: a HEAD gets the headers and nothing is copied, a GET gets the bytes, whole exactly at the host's end and short exactly at a failed write |
| EnclosureRelay.RefusalsAre | server/internal/api/enclosure.go:218-276 | every other answer is refused, each status for its own reason, a login withheld off the feed's origin told apart |
| EnclosureRelay.RememberedEndServes | server/internal/api/enclosure.go:191-213 | a remembered end that gives audio or refuses the range is the one fetch, answers the listener and changes nothing; any other costs a second fetch, which answers |
| EnclosureRelay.FitEndsAreKept | server/internal/api/enclosure.go:489-499 | a walk to a usable, gated end, on the feed's origin where the feed has a login, is looked up from then on |
| EnclosureRelay.NothingElseGoesOut | server/internal/api/enclosure.go:89-102 | only allowed headers go out, each as the host sent it, only a type that passed, and of a refused range only a length |
| EnclosureRelay.LengthPassedOn | server/internal/api/enclosure.go:376-382 | a host's length form is passed on as it is, spaces apart |
| EnclosureRelay.RequestIsProtocol | server/internal/api/enclosure.go:178-356 | the protocol's steps of one relay, taken without any other's between, leave the cache as the request does after as many fetches |
| EnclosureRelay.WarmerTeaches | server/internal/api/enclosure.go:522-563 | a warmer left to itself teaches what a relay's walk would and leaves no claim; one refused, not started or without an answer leaves the cache as it was |
| EnclosureRelay.CacheIsTransparent | server/internal/api/enclosure.go:191-213 | a request is answered as with nothing remembered, unless the remembered end itself gave audio or refused the range |
| EnclosureRelay.FailuresForget | server/internal/api/enclosure.go:196-213 | in one request a remembered end that failed is gone, unless the walk has just taught it anew |
| EnclosureRelay.UnfitEndsAreNotKept | server/internal/api/enclosure.go:489-499 | a walk with an unusable, ungated or credentialed off-origin end records nothing, whatever was remembered before |
| CronScheduler.Scheduler.Arm | server/cmd/waxdeck/main.go:806-890 | a kind is run exactly when due and not put off, and its floor moves unless it was put off |
| CronScheduler.Scheduler.Tick | server/cmd/waxdeck/main.go:814-890 | a tick does each kind's arm once and in order, and nothing during maintenance; exactly the runs called for are begun |
| CronScheduler.PassedRises | server/cmd/waxdeck/main.go:786-890 | over any turns the kind's window never moves back |
| CronScheduler.TurnPasses | server/cmd/waxdeck/main.go:806-890 | a turn begins a run exactly where its schedule is on and fired in its window, outside maintenance and unless held up; and the window moves to the run's mark or the tick, or stays |
| CronScheduler.EveryRunAnswersAFiring | server/internal/service/schedules.go:149-165 | every run is for a firing, every firing in an open window begins a run unless held up, and no firing is for two runs |
| CronScheduler.EveryInstantHasAFate | server/cmd/waxdeck/main.go:786-890 | every instant since the start is still pending or was passed in exactly one turn, which either began a run, answering or swallowing it, or looked and found the schedule off or silent at it |
| CronScheduler.AnsweredUnlessSwallowed | server/internal/service/schedules.go:139-173 | a passed firing of a steady schedule lies in the window of exactly one run begun at or after it, or else behind the tick that began a run and no later than its kept mark, and never both |
| CronScheduler.NothingLostUnlessSwallowed | server/internal/service/schedules.go:139-173 | every passed firing is answered if and only if no run whose mark was kept has a firing between its tick and its mark |
| CronScheduler.SwallowedForGood | server/internal/service/schedules.go:139-173 | a firing between a run's tick and its kept mark is in the window of no run, however long the scheduler goes on |
| CronScheduler.FiringsAreLost | server/internal/service/schedules.go:149-173 | for every kind there are a schedule, turns and a passed firing that no run answers however long the scheduler goes on |
| CronScheduler.PutOffIsNotLost | server/cmd/waxdeck/main.go:838-852 | a kind put off, or kept waiting by maintenance, stays due however long that takes |
| TaskStream.TaskEventStream.Read | server/internal/api/admin.go:1079-1128 | one read of any size: frames, polls, the done frame, and each way it ends |
| TaskStream.FillTells | server/internal/api/admin.go:1079-1128 | filling the buffer keeps what has been said equal to what the tasks seen call for |
| TaskStream.StreamTellsTheTask | server/internal/api/admin.go:1065-1147 | for any reads and polls: the first frame, one for each observable change, done only behind a done, failed or parked task, the last task told of like the latest poll's in state, progress and error, and each way it stops for its own reason |
| TaskStream.OneFrameAChange | server/internal/api/admin.go:1065-1147 | one frame for the first task and one for each whose state, progress or error differs from the one polled before |
| MelBank.BuildBand | server/internal/analyzer/embed.go:113-133 | each weight is stored against its own bin, and every bin inside the triangle has one |
| MelBank.EnergyIsFiltered | server/internal/analyzer/embed.go:163-169 | a band's weights give what its triangle gives over the whole spectrum |
| MelBank.BandsShareOut | server/internal/analyzer/embed.go:113-133 | neighbouring triangles sum to one between their centres |
| MelBank.OthersVanish | server/internal/analyzer/embed.go:113-133 | every other triangle is nought there |
| MelBank.WeightsBetween | server/internal/analyzer/embed.go:119-126 | weights lie between nought and one, positive exactly inside |
| MelBank.SidesAreStraight | server/internal/analyzer/embed.go:119-126 | a triangle is nought at its corners, one at its centre, and straight between |
| MelStatistics.ClampIsIdle | server/internal/analyzer/embed.go:172-197 | the sum-of-squares form is the population variance and never negative, so the clamp changes nothing |
| MelStatistics.DeltasTelescope | server/internal/analyzer/embed.go:188-196 | frame-to-frame changes sum to last less first |
| MelStatistics.Statistics | server/internal/analyzer/embed.go:172-197 | all 192 places hold their band's mean, deviation, mean change or deviation of change |
| MelStatistics.Normalise | server/internal/analyzer/embed.go:199-211 | a vector is refused exactly when all zero; one returned has length one |
| Embedding.Embedder.FramePower | server/internal/analyzer/embed.go:151-161 | in-bounds framing, windowing and power through the shared buffers |
| Embedding.FramesStep | server/internal/analyzer/embed.go:147-156 | a frame begins 512 samples after the one before, and a flat window leaves the samples as they are |
| Embedding.WindowWeighs | server/internal/analyzer/embed.go:151-153 | the window weighs each sample of a frame in proportion |
| Embedding.PhaseBlind | server/internal/analyzer/embed.go:157-161 | the power of a bin does not depend on its phase, and of a single part is its square |
| Embedding.EdgesRise | server/internal/analyzer/embed.go:105-109 | edges even on the mel scale rise on the scale of frequencies |
| Embedding.MelPointsEven | server/internal/analyzer/embed.go:103-107 | edges lie evenly on the mel scale from 20 to 8000 Hz |
| Embedding.Embedder.Embed | server/internal/analyzer/embed.go:141-212 | the normalised statistics of these samples alone, whatever the scratch held; refused exactly for too few samples or all-zero statistics |

## Left out

- SpecDocument.BundleMeansMerge: how YAML reads lines is a parameter with named laws; anchors, flow mappings, bodies at different columns and scalars that a blank line alters are what those laws and `AllFaithful` leave to the original's self-check.
- Reading fragment files (CRLF, header comments), the root's allowed and required keys, and writing the bundle atomically: plumbing.
- zlib, CRC-32, the FFT, JSON, IEEE float decoding and floating-point rounding: parameters or real arithmetic.
- CronScheduler.AnsweredUnlessSwallowed: speaks of a schedule that stays on and unchanged; EveryInstantHasAFate covers schedules that change.
- Cron expressions: a schedule is the set of instants it fires; the horizon at which the search for the next one gives up is not modelled.
- EnclosureProtocol.ClaimsReleasedOnce: counts claims and releases of each warmer; that a warmer is scheduled at all is not modelled, only that its own steps run out (WarmersEnd).
- EnclosureRelay.RelayEnclosure: log lines, the texts of error replies and the fixed security headers are not modelled.
- EnclosureRelay.CopyBody: a failed write counts as nothing written; how much of it reached the listener is not known to the code either.
- RadioRelay.ServeRadio: listening checkpoints, flushing and the now-playing notes are side calls and are left out; stations without metadata take the same loop without the relay.
- TaskStream.TaskEventStream.Read: the recheck of session and rights is the poll outcome that ends the stream; which rights a later poll reads with is not modelled.
- WavReader.EncodedDecodes: whole streams of 8-bit samples are not spelled out; OtherSamples gives the sample, and DecodedBetween its bounds.
- Embedding.Embedder.Embed: that silence has all-zero statistics is not stated, since the transform and the logarithm are parameters.
- Cropping, paper keying, flattening, badges and platform kits of the brand generator: artwork.
- HTTP handlers, DTO mapping, tokens, sockets, files and logging: plumbing.
