# os-spage codec, modelled in Dafny

os-spage stores crawled web pages in the *spage* archive format. Each
record in the format is laid out as follows:

- a URL line;
- an *inner header* of `Key: Value` lines, ended by a blank line;
- an *http header* of `Key: Value` lines joined by CRLF and ended by a CRLF
  (or a bare CRLF when there is none);
- optionally, a payload of exactly `Store-Size` bytes followed by CRLF.

The package has four parts, and this project models all four:

- **The writer.**
  - The record processor fills in `Type`, `Original-Size` and `Store-Size`, may
    zlib-compress the payload, fills in the schema's defaults and validates the record.
  - The encoder lays the record out as bytes.
  - The record writer joins the two and appends the bytes to a stream.
- **The spage reader.** This decoder is line-driven. It is a three-phase
  state machine: inner header, http header, payload. It resynchronises on
  any URL line, skips lines that do not decode, and inner-header lines
  longer than 1024 characters, and holds a URL seen in the http header over for the next
  record.
- **The offpage reader.** This decoder reads a single header whose
  `Content-Type` is a series `name,size;name,size;…`. That series declares
  the named payload segments that follow the header.
- **The converter.** It turns an spage stream into offpage records,
  working on raw bytes. It keeps the inner-header lines, drops
  `Original-Size`, and reads `Store-Size` to know the payload length. It
  zlib-decompresses the payload when it can. It then emits each record with
  a `Content-Type: snapshot, <size>;` series naming one stored segment and
  an `Original-Size: snapshot, <size>;` line, compressing the segment when
  it is non-empty.
- **Shared pieces.** These are the validator's format checks (`url`,
  `readable_time`, `error_reason`) and its default filling, the default
  inner-header schema, and `is_url`.

How the model is built:

- **Readers.** Each reader is a `class` whose fields are the decoder's
  mutable state. Its methods update those fields, and each method is
  proved against a pure step function over an immutable `State`:
  - spage reader: `ReadInnerHeader`, `ReadHttpHeader`, `ReadData`,
    `ReadRecord`, `Read` against `InnerHeaderStep`, `HttpHeaderStep`,
    `DataStep`, `Next`, `DecodeAll`;
  - offpage reader: `ReadHeader`, `ReadDeclared`, `ReadData`, `ReadRecord`,
    `Read` against `HeaderStep`, `ReadSegments`, `DataStep`, `Next`,
    `DecodeAll`;
  - converter: `ReadInnerHeader`, `ReadHttpHeader`, `ReadData`, `Generate`,
    `ReadRecord`, `Read` against `InnerStep`, `HttpStep`, `DataStep`,
    `Generated`, `Next`, `ConvertAll`.
  The `*Rules` modules then prove what the source promises about those
  functions.
- **Tail calls.** The source's `self._read = …` tail-call dispatch becomes
  a `phase` field together with a loop. The loop has no depth limit; see
  "Recursion depth" under Left out.
- **Writer.** The processor and the encoder are pure functions with method
  twins. `InnerHeaderStr` and `SetDefaults` keep the source's loops. The
  writer appends to a `Stream` object.
- **Round trip.** The `RoundTrip` module proves the main property that
  links writer and reader. Any stream of records the writer encodes, under
  the conditions stated in `RoundTrip.Encodable`, is decoded by the spage
  reader into exactly the records that were written. For each record, the
  URL comes back, the inner header comes back as the configured keys with
  non-None values in their string form, the http header comes back
  stripped, and the payload comes back byte for byte.

Where the format's description and the code differ, the model follows
the code. For example, the converter compresses the buffered payload only
when the payload is non-empty (`src/os_spage/spage_to_offpage.py:41`). An
empty buffer is therefore stored as zero bytes with both sizes 0
(`SpageToOffpageRules.EmptyBufferNotCompressed`). It is not stored as a
compressed empty stream.

## Model

| member | source | states |
|---|---|---|
| SpageWriter.Process | src/os_spage/spage_writer.py:36-75 | the method's result is the specified processing (`Processed`): size rules, then default filling, then the schema check |
| SpageWriter.Validate | src/os_spage/spage_writer.py:74 | the method fills the schema's defaults with the `SetDefaults` loop, then gives ValidationError exactly when the schema check rejects the filled record |
| SpageWriter.ProcessValidates | src/os_spage/spage_writer.py:37-75 | a processed record passed the size rules and the schema check, has its defaults filled, keeps its URL, and has an empty http header removed |
| SpageWriter.ProcessInfersType | src/os_spage/spage_writer.py:43-56 | with a payload and no Type, processing raises ValueError exactly when Original-Size is given; otherwise Original-Size is the payload length, Type is compressed or flat by the compress flag, and the payload is compressed exactly when the flag is set |
| SpageWriter.ProcessExplicitType | src/os_spage/spage_writer.py:57-62 | with a payload and an explicit Type, processing raises ValueError exactly when the Type is compressed or deleted and Original-Size is absent; flat sets Original-Size to the payload length; other Types keep Original-Size untouched; the payload and Type are unchanged |
| SpageWriter.ProcessStoreSize | src/os_spage/spage_writer.py:64-65 | with a payload, Store-Size equals the length of the stored (possibly compressed) payload |
| SpageWriter.NormalisedStoreSize | src/os_spage/spage_writer.py:40-65 | before validation, Store-Size is the stored payload's length |
| SpageWriter.ProcessNoData | src/os_spage/spage_writer.py:66-72 | without a payload, Original-Size and Store-Size are removed, Type defaults to flat, and no payload is written |
| SpageWriter.NormalisedNoData | src/os_spage/spage_writer.py:66-72 | the no-payload branch never raises, and sets the same fields before validation |
| SpageWriter.DefaultsKeepTypeAndSizes | src/os_spage/default_schema.py:35-56 | default filling neither adds nor changes Type, Original-Size or Store-Size |
| SpageWriter.SizeKeysDistinct | src/os_spage/default_schema.py:5-25 | the three size/Type keys and the three record types are distinct |
| SpageWriter.InnerHeaderStr | src/os_spage/spage_writer.py:97-113 | the loop builds the `key: value` lines of the configured keys that are present and not None, and drops the last newline; it returns "" for an empty block |
| SpageWriter.HeaderBlockStep | src/os_spage/spage_writer.py:101-109 | the block for one more key is the previous block plus that key's line |
| SpageWriter.TrimLastNewline | src/os_spage/spage_writer.py:111-113 | reading `tell() - 1` characters drops exactly the final newline, and an empty buffer gives "" |
| SpageWriter.HeaderBlockEndsInNewline | src/os_spage/spage_writer.py:108-109 | a non-empty block ends in a newline |
| SpageWriter.HttpLines | src/os_spage/spage_writer.py:94-95 | there is one `key: value` line per http pair |
| SpageWriter.HttpHeaderStr | src/os_spage/spage_writer.py:91-95 | there is no http text exactly when the http header is absent or empty |
| SpageWriter.Dumps | src/os_spage/spage_writer.py:115-138 | the method's output is the specified layout: URL and LF, inner header and LF LF, http text and CRLF CRLF (or a bare CRLF), then payload and CRLF |
| SpageWriter.BlockBytes | src/os_spage/spage_writer.py:120-122 | the trimmed block's bytes followed by two LFs are the block's bytes followed by one LF |
| SpageWriter.Stream.Write | src/os_spage/spage_writer.py:167 | the stream's contents grow by exactly the bytes written |
| SpageWriter.CreateWriter | src/os_spage/spage_writer.py:170-178 | the writer's allowed inner-header keys are the schema's keys in schema order, and the compress flag, compressor, schema check and clock value are stored as passed |
| SpageWriter.Write | src/os_spage/spage_writer.py:154-167 | on success the stream grows by exactly the encoded record; on error it is unchanged and the error is the one the payload type check or the processor raises (for the value types of the model; see Left out) |
| SpageWriter.NormalisedRaises | src/os_spage/spage_writer.py:43-62 | processing raises ValueError exactly when a payload is present and either Original-Size is given without a Type, or the Type is compressed or deleted and Original-Size is absent |
| RoundTrip.WriteReadsBack | src/os_spage/spage_writer.py:154-167 | a successful write whose processed record meets `Encodable` is read back by the spage reader as the expected record, and then the stream ends |
| SpageWriter.WriteRejectsNonBytes | src/os_spage/spage_writer.py:155-157 | a payload that is neither bytes nor None raises ValueError |
| SpageWriter.EmptyHttpIsBareCrlf | src/os_spage/spage_writer.py:124-127 | an empty http header is removed and encodes as a single CRLF |
| SpageReader.Start | src/os_spage/spage_reader.py:15-18 | a new decoder starts at offset 0 in the inner-header phase |
| SpageReader.ResetState | src/os_spage/spage_reader.py:20-26 | reset moves the held URL into place, clears the held URL, empties both headers and the payload, and returns to the inner header |
| SpageReader.InnerHeaderStep | src/os_spage/spage_reader.py:36-58 | an inner-header step never emits or fails, and when it goes on it consumes at least one byte |
| SpageReader.HttpHeaderStep | src/os_spage/spage_reader.py:60-80 | an http-header step never emits or fails, and when it goes on it consumes at least one byte |
| SpageReader.DataStep | src/os_spage/spage_reader.py:82-98 | the payload step never continues, and an emitted record leaves the offset within the stream |
| SpageReader.StepOf | src/os_spage/spage_reader.py:36-98 | only header phases continue, and only the payload phase emits |
| SpageReader.Next | src/os_spage/spage_reader.py:100-104 | one `_read()` either emits a record, ends or raises; an emitted record leaves the offset no further back, and strictly further on when the call starts in a header phase |
| SpageReader.DecodeAllEmitted | src/os_spage/spage_reader.py:100-106 | the stream's records are the emitted record followed by what the reset decoder reads next |
| SpageReader.Reader.constructor | src/os_spage/spage_reader.py:15-18 | the object's state is the start state over the stream |
| SpageReader.Reader.Reset | src/os_spage/spage_reader.py:20-26 | the object's new state is the reset of its old state |
| SpageReader.Reader.ReadLine | src/os_spage/spage_reader.py:37 | `readline` returns the bytes up to and including the next LF, or up to the end of the stream |
| SpageReader.Reader.ReadBytes | src/os_spage/spage_reader.py:87 | `read(n)` returns the next n bytes, or fewer at the end of the stream |
| SpageReader.Reader.ReadInnerHeader | src/os_spage/spage_reader.py:36-58 | the method changes the state exactly as `InnerHeaderStep` specifies |
| SpageReader.Reader.ApplyInnerHeaderLine | src/os_spage/spage_reader.py:45-57 | the method applies one stripped line as `InnerHeaderLine` specifies |
| SpageReader.Reader.ReadHttpHeader | src/os_spage/spage_reader.py:60-80 | the method changes the state exactly as `HttpHeaderStep` specifies |
| SpageReader.Reader.ApplyHttpHeaderLine | src/os_spage/spage_reader.py:68-78 | the method applies one stripped line as `HttpHeaderLine` specifies |
| SpageReader.Reader.ReadData | src/os_spage/spage_reader.py:82-98 | the method changes the state exactly as `DataStep` specifies |
| SpageReader.Reader.ReadRecord | src/os_spage/spage_reader.py:36-98 | the loop over the phase field yields, ends or raises exactly as `Next` specifies |
| SpageReader.Reader.Read | src/os_spage/spage_reader.py:100-106 | the records yielded and the error raised are exactly `DecodeAll` of the starting state |
| SpageReaderRules.EndOfStreamInHeader | src/os_spage/spage_reader.py:37-39 | an empty `readline` in a header phase ends the stream with no further record |
| SpageReaderRules.UndecodableLineSkipped | src/os_spage/spage_reader.py:40-43 | a line that does not decode is consumed and changes nothing else |
| SpageReaderRules.LongLineSkipped | src/os_spage/spage_reader.py:47-48 | an inner-header line longer than 1024 characters is consumed and ignored |
| SpageReaderRules.UrlLineResets | src/os_spage/spage_reader.py:49-51 | a URL line resets the decoder and starts a record with that URL |
| SpageReaderRules.ToHttpHeaderExactly | src/os_spage/spage_reader.py:45-46 | the decoder moves on to the http header if and only if it reads a blank line while it holds a header line and a URL |
| SpageReaderRules.OtherBlankLineSkipped | src/os_spage/spage_reader.py:45-58 | a blank line before any header line or URL is skipped |
| SpageReaderRules.InnerHeaderLineStored | src/os_spage/spage_reader.py:52-57 | a line that is not a URL stores its stripped key and value when it has a colon past position 0, and is ignored otherwise |
| Text.HeaderPair | src/os_spage/spage_reader.py:53-56 | a line yields a pair exactly when its first colon is past position 0 |
| SpageReaderRules.HttpHeaderLineStored | src/os_spage/spage_reader.py:73-78 | an http-header line with a colon past position 0 stores its key and value in the http header; any other non-URL line leaves the state unchanged |
| SpageReaderRules.HeaderPairSplitsAtFirstColon | src/os_spage/spage_reader.py:53-56 | the key is the stripped text before the first colon and the value is the stripped text after it |
| SpageReaderRules.HttpBlankLineToData | src/os_spage/spage_reader.py:68-69 | a blank line in the http header moves the decoder on to the payload |
| SpageReaderRules.HttpUrlLineHeld | src/os_spage/spage_reader.py:70-72 | a URL in the http header is held over and moves the decoder on to the payload |
| SpageReaderRules.HeldUrlStartsNextRecord | src/os_spage/spage_reader.py:84-85 | with a held URL, the record is emitted without a payload and the next record starts with that URL |
| SpageReaderRules.NoSizeNoPayload | src/os_spage/spage_reader.py:83-85 | without a Store-Size, or with a negative one, the record is emitted without a payload |
| SpageReaderRules.BadSizeRaises | src/os_spage/spage_reader.py:83 | a Store-Size that is not an integer raises ValueError |
| SpageReaderRules.EmptyReadEnds | src/os_spage/spage_reader.py:87-89 | an empty read of a positive-size payload ends the stream |
| SpageReaderRules.PayloadIsStoreSizeBytes | src/os_spage/spage_reader.py:87-97 | the payload is exactly the next Store-Size bytes, and the offset moves past them |
| SpageReaderRules.ShortPayloadKept | src/os_spage/spage_reader.py:86-97 | when fewer than Store-Size bytes are left, the bytes that remain become the payload and the offset moves to the end of the stream |
| SpageReaderRules.LegacyShift | src/os_spage/spage_reader.py:91-96 | with an empty http header and a payload starting with CRLF, the window shifts by two bytes |
| SpageReaderRules.StartInv | src/os_spage/spage_reader.py:15-18 | the start state satisfies the decoder invariant |
| SpageReaderRules.InnerHeaderStepKeepsInv | src/os_spage/spage_reader.py:36-58 | inner-header steps keep the invariant |
| SpageReaderRules.HttpHeaderStepKeepsInv | src/os_spage/spage_reader.py:60-80 | http-header steps keep the invariant, and entering the payload phase requires a URL and a header |
| SpageReaderRules.DataStepKeepsInv | src/os_spage/spage_reader.py:82-98 | an emitted record carries a URL and an inner header |
| SpageReaderRules.StepKeepsInv | src/os_spage/spage_reader.py:36-98 | every step keeps the invariant |
| SpageReaderRules.NextKeepsInv | src/os_spage/spage_reader.py:100-104 | after an emitted record, the reset state satisfies the invariant again |
| SpageReaderRules.RecordsHaveUrlAndHeader | src/os_spage/spage_reader.py:28-34 | every record decoded from an invariant state has a URL and a non-empty inner header |
| SpageReaderRules.StreamRecordsHaveUrlAndHeader | src/os_spage/spage_reader.py:100-106 | every record read from any stream has a URL and a non-empty inner header |
| OffpageReader.Items | src/os_spage/offpage_reader.py:70 | a series value iterates as its tuples, and a plain value iterates character by character |
| OffpageReader.KeepPairsInOrder | src/os_spage/offpage_reader.py:65 | the comprehension keeps the pieces in their order: the tuples of two runs of pieces are those of the first run followed by those of the second |
| OffpageReader.KeepPairsExact | src/os_spage/offpage_reader.py:65 | exactly the pieces that contain a comma become tuples, each split at every comma |
| OffpageReader.SplitSeriesExact | src/os_spage/offpage_reader.py:64-66 | `_split_series` keeps exactly the `;`-pieces with a comma, each split at its commas |
| OffpageReader.SeriesRoundTrip | src/os_spage/offpage_reader.py:64-66 | a series written from `name,size` atoms splits back into exactly those pairs |
| OffpageReader.TrailingSeparator | src/os_spage/offpage_reader.py:65 | a trailing `;` adds no tuple |
| OffpageReader.HeaderValueOf | src/os_spage/offpage_reader.py:59-60 | a value is split into a series exactly for Content-Type and Original-Size |
| OffpageReader.Start | src/os_spage/offpage_reader.py:19-22 | a new decoder starts at offset 0 in the header phase, holding no URL |
| OffpageReader.ResetState | src/os_spage/offpage_reader.py:24-29 | reset moves the held URL into place and empties the header and the data |
| OffpageReader.HeaderStep | src/os_spage/offpage_reader.py:38-62 | a header step never emits or fails, and when it goes on it consumes at least one byte |
| OffpageReader.ReadSegments | src/os_spage/offpage_reader.py:70-77 | the segment loop keeps the offset within the stream |
| OffpageReader.DataStep | src/os_spage/offpage_reader.py:68-80 | the data step never continues, and an emitted record keeps the offset within the stream |
| OffpageReader.StepOf | src/os_spage/offpage_reader.py:38-80 | only the header phase continues, and only the data phase emits |
| OffpageReader.Next | src/os_spage/offpage_reader.py:82-85 | one `_read()` emits a record with the offset moved forward, ends or raises |
| OffpageReader.DecodeAllEmitted | src/os_spage/offpage_reader.py:82-85 | the stream's records are the emitted record followed by what the reset decoder reads next |
| OffpageReader.Reader.constructor | src/os_spage/offpage_reader.py:19-22 | the object's state is the start state over the stream |
| OffpageReader.Reader.Reset | src/os_spage/offpage_reader.py:24-29 | the object's new state is the reset of its old state |
| OffpageReader.Reader.ReadHeader | src/os_spage/offpage_reader.py:38-62 | the method changes the state exactly as `HeaderStep` specifies |
| OffpageReader.Reader.ApplyHeaderLine | src/os_spage/offpage_reader.py:46-61 | the method applies one stripped line as `HeaderLine` specifies |
| OffpageReader.Reader.StoreHeader | src/os_spage/offpage_reader.py:59-61 | the method stores the key with its value split into a series when the key calls for one, and nothing else changes |
| OffpageReader.Reader.ReadDeclared | src/os_spage/offpage_reader.py:69-77 | the loop reads the declared segments exactly as `ReadSegments` specifies |
| OffpageReader.Reader.ReadData | src/os_spage/offpage_reader.py:68-80 | the method changes the state exactly as `DataStep` specifies |
| OffpageReader.Reader.ReadRecord | src/os_spage/offpage_reader.py:38-80 | the loop yields, ends or raises exactly as `Next` specifies |
| OffpageReader.Reader.Read | src/os_spage/offpage_reader.py:82-85 | the records yielded and the error raised are exactly `DecodeAll` of the starting state |
| OffpageReaderRules.EndOfStreamInHeader | src/os_spage/offpage_reader.py:39-41 | an empty `readline` in the header ends the stream with no further record |
| OffpageReaderRules.UndecodableLineSkipped | src/os_spage/offpage_reader.py:42-45 | a line that does not decode is consumed and changes nothing else |
| OffpageReaderRules.LongLineSkipped | src/os_spage/offpage_reader.py:49-50 | a line longer than 1024 characters is consumed and ignored |
| OffpageReaderRules.UrlLineResets | src/os_spage/offpage_reader.py:51-53 | a URL line resets the decoder and starts a record with that URL |
| OffpageReaderRules.ToDataExactly | src/os_spage/offpage_reader.py:47-48 | the decoder moves on to the data if and only if it reads a blank line while it holds a header line |
| OffpageReaderRules.LeadingBlankLineSkipped | src/os_spage/offpage_reader.py:47-62 | a blank line before any header line is skipped |
| OffpageReaderRules.HeaderLineStored | src/os_spage/offpage_reader.py:54-61 | a line that is not a URL stores its stripped key and value when it has a colon past position 0, and is ignored otherwise |
| OffpageReaderRules.MissingContentTypeRaises | src/os_spage/offpage_reader.py:70 | without Content-Type the data step raises KeyError, and reading stops |
| OffpageReaderRules.NegativeSizeDiscardsSegments | src/os_spage/offpage_reader.py:72-73 | a negative declared size emits the record with no data, and segments read before it are discarded |
| OffpageReaderRules.NegativeSizeStopsLoop | src/os_spage/offpage_reader.py:71-73 | the loop stops at a negative size without reading |
| OffpageReaderRules.EmptyReadEnds | src/os_spage/offpage_reader.py:75-76 | an empty read of a positive-size segment ends the stream |
| OffpageReaderRules.StoredLookup | src/os_spage/offpage_reader.py:77 | each declared name maps to its segment, and a later duplicate name overrides an earlier one |
| OffpageReaderRules.SegmentsRead | src/os_spage/offpage_reader.py:70-79 | segments present in the stream are read in order, each of its declared size |
| OffpageReaderRules.DeclaredSegment | src/os_spage/offpage_reader.py:64-71 | the tuples of a declared series give each name with its size |
| OffpageReaderRules.DeclaredSegmentsRead | src/os_spage/offpage_reader.py:68-80 | a record whose Content-Type declares the segments that follow it is emitted with exactly those segments |
| OffpageReaderRules.DeclaredRead | src/os_spage/offpage_reader.py:64-77 | a Content-Type series written from names and payloads reads those payloads back |
| OffpageReaderRules.DeclaredItems | src/os_spage/offpage_reader.py:59-65 | the stored Content-Type value iterates as the declared pairs |
| OffpageReaderRules.StartInv | src/os_spage/offpage_reader.py:19-22 | the start state satisfies the decoder invariant |
| OffpageReaderRules.HeaderStepKeepsInv | src/os_spage/offpage_reader.py:38-62 | header steps keep the invariant |
| OffpageReaderRules.LookaheadNeverFires | src/os_spage/offpage_reader.py:72 | `_url_latest` is never set while reading data, so only a negative size ends the loop early |
| OffpageReaderRules.NextKeepsInv | src/os_spage/offpage_reader.py:82-85 | after an emitted record, the reset state satisfies the invariant again |
| OffpageReaderRules.RecordsHaveContentType | src/os_spage/offpage_reader.py:31-36 | every record decoded from an invariant state has a series-valued Content-Type |
| OffpageReaderRules.StreamRecordsHaveContentType | src/os_spage/offpage_reader.py:82-85 | every record read from any stream has a series-valued Content-Type |
| SpageToOffpage.Start | src/os_spage/spage_to_offpage.py:16-20 | a new converter starts at offset 0 in the inner header, with empty buffers and a store size of 0 |
| SpageToOffpage.ResetState | src/os_spage/spage_to_offpage.py:22-28 | reset moves the held URL into place, empties the buffers and sets the store size to 0 |
| SpageToOffpage.InnerLine | src/os_spage/spage_to_offpage.py:58-73 | a stripped inner-header line either updates the state without moving the offset, or raises |
| SpageToOffpage.InnerStep | src/os_spage/spage_to_offpage.py:53-74 | an inner-header step never emits, and when it goes on it consumes at least one byte |
| SpageToOffpage.HttpStep | src/os_spage/spage_to_offpage.py:76-89 | an http-header step never emits or fails, and when it goes on it consumes at least one byte |
| SpageToOffpage.Generated | src/os_spage/spage_to_offpage.py:30-51 | generating either emits a record and leaves the state as it was, or raises |
| SpageToOffpage.DataStep | src/os_spage/spage_to_offpage.py:91-110 | the payload step never continues, and an emitted record keeps the offset within the stream |
| SpageToOffpage.StepOf | src/os_spage/spage_to_offpage.py:53-110 | only header phases continue, and only the payload phase emits |
| SpageToOffpage.Next | src/os_spage/spage_to_offpage.py:112-116 | one `_read()` emits a record with the offset moved forward, ends or raises |
| SpageToOffpage.ConvertAllEmitted | src/os_spage/spage_to_offpage.py:112-118 | the converted stream is the emitted record followed by what the reset converter produces next |
| SpageToOffpage.Reader.constructor | src/os_spage/spage_to_offpage.py:16-20 | the object's state is the start state over the stream |
| SpageToOffpage.Reader.Reset | src/os_spage/spage_to_offpage.py:22-28 | the object's new state is the reset of its old state |
| SpageToOffpage.Reader.ReadLine | src/os_spage/spage_to_offpage.py:54 | `readline` returns the bytes up to and including the next LF, or up to the end of the stream |
| SpageToOffpage.Reader.ReadBytes | src/os_spage/spage_to_offpage.py:95 | `read(n)` returns the next n bytes, or fewer at the end of the stream |
| SpageToOffpage.Reader.ReadInnerHeader | src/os_spage/spage_to_offpage.py:53-74 | the method changes the state exactly as `InnerStep` specifies |
| SpageToOffpage.Reader.ApplyInnerLine | src/os_spage/spage_to_offpage.py:58-73 | the method applies one line as `InnerLine` specifies |
| SpageToOffpage.Reader.ReadHttpHeader | src/os_spage/spage_to_offpage.py:76-89 | the method changes the state exactly as `HttpStep` specifies |
| SpageToOffpage.Reader.ApplyHttpLine | src/os_spage/spage_to_offpage.py:81-88 | the method applies one line as `HttpLine` specifies |
| SpageToOffpage.Reader.ReadData | src/os_spage/spage_to_offpage.py:91-110 | the method changes the state exactly as `DataStep` specifies |
| SpageToOffpage.Reader.Generate | src/os_spage/spage_to_offpage.py:30-51 | the method yields or raises as `Generated` specifies |
| SpageToOffpage.Reader.ReadRecord | src/os_spage/spage_to_offpage.py:53-110 | the loop yields, ends or raises exactly as `Next` specifies |
| SpageToOffpage.Reader.Read | src/os_spage/spage_to_offpage.py:112-118 | the records produced and the error raised are exactly `ConvertAll` of the starting state |
| SpageToOffpageRules.BlankInnerLine | src/os_spage/spage_to_offpage.py:59-60 | a blank line moves on to the http header when a URL is held, and otherwise is copied as an empty line |
| SpageToOffpageRules.LongInnerLineSkipped | src/os_spage/spage_to_offpage.py:61-62 | a line longer than 1024 bytes is ignored |
| SpageToOffpageRules.UrlLineRestarts | src/os_spage/spage_to_offpage.py:63-65 | a URL line resets the converter and starts a record with that URL |
| SpageToOffpageRules.NotUrlByFirst | src/os_spage/spage_to_offpage.py:63-69 | a line whose first character is not `h` is never taken for a URL, so the URL check never shadows the Original-Size and Store-Size branches |
| SpageToOffpageRules.OriginalSizeDropped | src/os_spage/spage_to_offpage.py:67-68 | an Original-Size line is dropped |
| SpageToOffpageRules.StoreSizeLine | src/os_spage/spage_to_offpage.py:69-70 | a Store-Size line sets the store size to its integer value, or raises the parse error |
| SpageToOffpageRules.OtherInnerLineCopied | src/os_spage/spage_to_offpage.py:71-73 | any other line is copied to the inner buffer followed by LF |
| SpageToOffpageRules.StoreSizeOfWritten | src/os_spage/spage_to_offpage.py:70 | a Store-Size line as the writer prints it parses back to its number |
| SpageToOffpageRules.WrittenStoreSizeSet | src/os_spage/spage_to_offpage.py:58-70 | reading the writer's Store-Size line sets the store size to that number |
| SpageToOffpageRules.HttpLineEffect | src/os_spage/spage_to_offpage.py:81-88 | an http line is held over when it is a URL and is otherwise copied; the data phase starts exactly on a blank line or a URL |
| SpageToOffpageRules.EmitsWithoutReading | src/os_spage/spage_to_offpage.py:92-93 | with no positive store size, or with a held URL, the record is generated without reading a payload |
| SpageToOffpageRules.PayloadAppended | src/os_spage/spage_to_offpage.py:94-102 | the payload read is decompressed when zlib accepts it and is otherwise kept as read |
| SpageToOffpageRules.EmptyReadEnds | src/os_spage/spage_to_offpage.py:99-101 | an empty payload read ends the stream |
| SpageToOffpageRules.StartInv | src/os_spage/spage_to_offpage.py:16-20 | the start state satisfies the converter invariant |
| SpageToOffpageRules.ResetInv | src/os_spage/spage_to_offpage.py:22-28 | every reset state satisfies the invariant |
| SpageToOffpageRules.HttpStepKeepsInv | src/os_spage/spage_to_offpage.py:76-89 | http-header steps keep the invariant |
| SpageToOffpageRules.InnerStepKeepsInv | src/os_spage/spage_to_offpage.py:53-74 | inner-header steps keep the invariant |
| SpageToOffpageRules.InnerLineKeepsInv | src/os_spage/spage_to_offpage.py:58-73 | a single inner line keeps the invariant, and its only error is ValueError |
| SpageToOffpageRules.StepKeepsInv | src/os_spage/spage_to_offpage.py:53-110 | every step keeps the invariant |
| SpageToOffpageRules.LegacyShiftUnreachable | src/os_spage/spage_to_offpage.py:103-108 | by the time of a payload read, the http buffer always holds at least the closing blank line, so the legacy shift never happens |
| SpageToOffpageRules.DataStepNeverFails | src/os_spage/spage_to_offpage.py:91-110 | the payload step never raises |
| SpageToOffpageRules.StepErrorIsStoreSize | src/os_spage/spage_to_offpage.py:69-70 | the only error one step can raise is ValueError |
| SpageToOffpageRules.NextErrorIsStoreSize | src/os_spage/spage_to_offpage.py:112-116 | the only error `_read()` can raise is the ValueError of an unparsable Store-Size |
| SpageToOffpageRules.ConvertAllErrorIsStoreSize | src/os_spage/spage_to_offpage.py:112-118 | the only error that can end a conversion is ValueError |
| SpageToOffpageRules.StoreSizeError | src/os_spage/spage_to_offpage.py:70 | a failed parse of a Store-Size value is ValueError |
| SpageToOffpageRules.EmptyBufferNotCompressed | src/os_spage/spage_to_offpage.py:39-45 | an empty payload is emitted uncompressed with sizes 0, whatever zlib does |
| ConvertRoundTrip.OutputReadsBack | src/os_spage/spage_to_offpage.py:30-51 | the bytes `_generate` writes are read by the offpage reader as exactly one record: the URL, every buffered inner-header entry, Content-Type and Original-Size parsed as `snapshot` size series, and the stored bytes under `snapshot`; the stream then ends |
| ConvertRoundTrip.SizeSeries | src/os_spage/offpage_reader.py:59-66 | a `snapshot, <n>;` size line is split into the one-pair series (`snapshot`, ` <n>`) |
| ConvertRoundTrip.SizeParses | src/os_spage/offpage_reader.py:71 | the size text ` <n>` that the converter writes parses back as n |
| ConvertRoundTrip.ReadSnapshot | src/os_spage/offpage_reader.py:68-80 | with a `snapshot` Content-Type of the stored size, the payload step reads exactly the stored bytes and emits the record with them under `snapshot` |
| ConvertRoundTrip.ReadTrailer | src/os_spage/offpage_reader.py:38-48 | the trailing LF after a record is skipped as a blank header line and the stream then ends with no further record |
| Validator.HeaderLineIsNotUrl | src/os_spage/validator.py:19-20 | a `key: value` line with a non-empty key that has no colon is never taken for a URL |
| Validator.SimpleCheckUrlExamples | tests/test_validator.py:15-28 | the test's accepted and rejected URLs, plus the 10-character boundary |
| Validator.CheckErrorReasonAsWritten | src/os_spage/validator.py:27-32 | the function as written never returns true |
| Validator.AsWrittenRaisesOnValidReasons | src/os_spage/validator.py:32 | every well-formed reason makes the check as written raise AttributeError |
| Validator.ErrorReasonShape | src/os_spage/validator.py:27-32 | the intended check holds iff the text is a known error type, one space, and a signed integer |
| Validator.ErrorReasonOfTokens | src/os_spage/validator.py:28-32 | for a space-free type and number, the check is membership in the error types and integer syntax |
| Validator.ErrorReasonHttpExample | tests/test_validator.py:6-8 | `HTTP 404` is accepted |
| Validator.ErrorReasonRuleExample | tests/test_validator.py:6-8 | `RULE 16` is accepted |
| Validator.ErrorReasonServerExample | tests/test_validator.py:6-8 | `SERVER 110` is accepted |
| Validator.ErrorReasonNegativeExamples | tests/test_validator.py:6-8 | `DNS -2` and `SSL -2` are accepted |
| Validator.ErrorReasonNoSpaceExample | tests/test_validator.py:10-12 | `HTTP404` is rejected, with or without the misspelled call |
| Validator.ErrorReasonDoubleSpaceExample | tests/test_validator.py:10-12 | `RULE 16` is accepted and `RULE  16`, with two spaces, is rejected |
| Validator.ErrorReasonTextCodeExample | tests/test_validator.py:10-12 | `RULE TEST` is rejected |
| Validator.CheckDatetime | src/os_spage/validator.py:12-15 | a value that is not a string passes, and a string passes exactly when it parses as a time |
| Validator.ErrorReasonFieldUnchecked | src/os_spage/default_schema.py:99-102 | the Error-Reason field's format name matches no checker, so any value passes its format check |
| Validator.SetDefaults | src/os_spage/validator.py:38-44 | filling keeps every given key and value, and adds every absent key that has a default, with that default's value |
| Validator.DefaultedKeysStep | src/os_spage/validator.py:39-44 | one more property adds its key exactly when it has a default |
| Validator.FilledIsWithDefaults | src/os_spage/validator.py:38-44 | a key absent from the instance takes its field's default |
| Validator.SchemaKeysDistinct | src/os_spage/default_schema.py:28-104 | the schema's inner-header keys are pairwise distinct |
| DefaultSchema.KeyOrder | src/os_spage/default_schema.py:28-104 | the writer's key order is the schema's fourteen keys, pairwise distinct |
| DefaultSchema.TypeEnumIsExact | src/os_spage/default_schema.py:35-38 | Type accepts exactly flat, deleted and compressed |
| DefaultSchema.LiteralDefaultsMeetConstraints | src/os_spage/default_schema.py:57-87 | every literal default meets its field's length constraints; the Batch-ID default is `__CHANGE_ME__`, the Digest default is 32 zeros, and every ipv4 field defaults to `0.0.0.0` |
| DefaultSchema.FieldsWithDefaults | src/os_spage/default_schema.py:31-102 | Type, Original-Size, Store-Size and the other fields without a default are exactly those listed |
| DefaultSchema.FieldOf | src/os_spage/default_schema.py:28-104 | a key's field is found exactly when the schema lists that key |
| Utils.IsUrl | src/os_spage/utils.py:1-4 | an absent or empty URL is rejected, and an accepted one is longer than 10 characters |
| Utils.IsUrlAgreesWithSimpleCheckUrl | src/os_spage/utils.py:1-4 | on a present string, `is_url` agrees with the validator's URL format check |
| Utils.ShortUrlRejected | src/os_spage/utils.py:4 | the 10-character boundary: 10 characters are rejected and 11 accepted |
| RoundTrip.ReadTextLine | src/os_spage/spage_reader.py:37-43 | a line the writer wrote is read whole and decodes to itself |
| RoundTrip.DecodeHeaderLine | src/os_spage/spage_reader.py:52-57 | a written `key: value` line, once stripped, is not blank, is not a URL, and splits back into its key and value |
| RoundTrip.ColonEndedIsNotUrl | src/os_spage/validator.py:19-20 | a key followed by a colon is never taken for a URL |
| RoundTrip.InnerMapContents | src/os_spage/spage_writer.py:101-108 | the inner header read back holds exactly the configured keys with non-None values, each as its stripped string form |
| RoundTrip.FoldSnoc | src/os_spage/spage_reader.py:57 | a later line for a key replaces the earlier value |
| RoundTrip.ReadRecord | src/os_spage/spage_writer.py:115-138 | a record the writer lays out is read back as the expected record |
| RoundTrip.RecordFields | src/os_spage/spage_reader.py:28-34 | the record generated after the header lines carries the written URL, inner header and http header |
| RoundTrip.StoreSizeOf | src/os_spage/spage_reader.py:83 | the Store-Size read back is the written payload length |
| RoundTrip.HttpMapEmpty | src/os_spage/spage_reader.py:91 | the http header reads back empty exactly when no http text was written |
| RoundTrip.ReadStream | tests/test_reader_and_writer.py:53-74 | reading a stream of written records yields exactly the expected records and no error |

## Left out

- I/O: the file objects and the size-rotating `SpageWriter`, `SpageReader`,
  `OffpageReader` and `SpageToOffpage` facades, and the module-level `read`
  and `write` helpers, are not part of this model. A stream is a byte
  sequence, and `readline`/`read` are `LineEnd`/`ReadEnd` over it.
- UTF-8 decoding is a parameter `dec` of the readers, with only its
  success or failure relied on. The round trip assumes that it inverts
  the model's `Utf8Encode` (`DecodesUtf8`).
- zlib: `compress` is a parameter of the processor, and `compress` and
  `decompress` are parameters of the converter (`Zlib`). Their
  correctness, and so the sizes of compressed payloads, are not modelled.
- The schema check (jsonschema `validate`) is a predicate parameter. Only
  the default filling, the three format checkers and the constraints of the
  literal defaults are modelled. The `ipv4` and `readable_time` library
  parsers are parameters.
- `datetime.now` (the Fetch-Time default) and `strftime` of `datetime`
  values are a fixed string parameter.
- SpageWriter.CreateWriter: `create_writer`'s keyword defaults
  (`compress=True`, and the default schema's validator,
  src/os_spage/spage_writer.py:170-172) are not modelled as defaults. The
  model takes the flag and the schema check as arguments, so a call
  without `compress` is `CreateWriter(true, …)`.
- Python dictionaries: the http header is a sequence of pairs, in the
  order the dictionary's iteration happens to give (Python 2 dictionaries
  promise no order); the model fixes that order as the sequence. The encoder's fallback to `inner_header.keys()` when no allowed
  keys are given is not modelled, because `create_writer` always passes the
  schema's keys.
- Exceptions keep their kind and, where it is useful, a short message
  (`ValueError`, `KeyError("Content-Type")`, `AttributeError("sidigit")`).
  They do not keep Python's exact message text. A Content-Type tuple of
  the wrong arity is a ValueError.
- StopIteration: under Python 2 an empty read ends the generator, and the
  model gives every reader that semantics ("ended").
- Text.ParseInt: only ASCII decimal digits are accepted. Python's `int()`
  on decoded text also accepts other Unicode decimal digits (full-width
  `１２` is 12), and Python 3 also accepts underscores between digits
  (`1_0` is 10). So a Store-Size or Content-Type size written that way,
  which `int()` parses at src/os_spage/spage_reader.py:83 and
  src/os_spage/offpage_reader.py:71, is a ValueError in the model
  (`SpageReaderRules.BadSizeRaises`). The converter's Store-Size parse on
  bytes is affected only by the underscore case.
- SpageToOffpage: src/os_spage/spage_to_offpage.py:5 imports `BytesIO`
  from `.compat`, but src/os_spage/compat.py defines only `StringIO` and
  `iteritems`. As written, importing the converter, and so the package
  (src/os_spage/__init__.py:5), raises ImportError. The model takes
  `BytesIO` to be `io.BytesIO`, whose objects are always true. The
  buffer's truth test in `if line_length <= 0 and self._inner_header and
  self._url` (src/os_spage/spage_to_offpage.py:59) is therefore always
  true and is dropped (`SpageToOffpage.InnerLine`,
  `SpageToOffpageRules.BlankInnerLine`).
- The converter's byte lines are read as Latin-1 text when parsing the
  Store-Size integer (`Latin1`). Python 2 `str` semantics beyond that are
  not modelled.
- RoundTrip.ReadStream: the round trip is proved only for records that
  meet `Encodable`, which is weaker than an unconditional round trip. The
  conditions are these:
  - the URL passes the URL check and is stripped, on one line and at most
    1024 characters long;
  - every header key is stripped, non-empty, and free of colons and
    newlines, and every line fits in 1024 characters;
  - there is at least one inner-header line;
  - a payload comes with a matching Store-Size;
  - a payload behind an empty http header does not start with CRLF.

  Records outside these conditions are handled by the reader's
  resynchronisation rules, which are modelled separately, rather than
  read back unchanged.
- RoundTrip.WriteReadsBack: proved for writes whose processed record meets
  `Encodable` (above), not for every successful write.
- ConvertRoundTrip.OutputReadsBack: proved only when the URL meets the
  conditions above, the buffered inner header is made of header lines that
  are stripped, colon-separated and at most 1024 characters, and both size
  lines fit in 1024 characters (`SizeFits`). Outside these the offpage
  reader skips or resynchronises on lines, as its own rules state.
- Recursion depth: the readers call `self._read()` again for every skipped
  or header line (src/os_spage/spage_reader.py:43,58,67,80,
  src/os_spage/offpage_reader.py:45,62) and the converter's `_read_*`
  methods do the same (src/os_spage/spage_to_offpage.py:74,89). After
  about 1000 nested calls Python raises RuntimeError ("maximum recursion
  depth exceeded"), and `read()` catches only StopIteration, so that error
  escapes. The model reads any number of lines and does not model the
  limit or its error.
- Number values: Original-Size and Store-Size have schema type `number`
  (src/os_spage/default_schema.py:52,55), so a caller may pass a float.
  The model's `Value` holds only integers, so float sizes and their `%s`
  rendering are not modelled.
- Non-string http-header keys or values: `_http_header_str` calls `strip`
  on each key and value (src/os_spage/spage_writer.py:94) and raises
  AttributeError for anything but a string. The model's http header holds
  only strings, so that error is not modelled.

## Findings

| source | as written | input that shows it | evidently intended | confidence | as-written member | corrected member |
|---|---|---|---|---|---|---|
| src/os_spage/validator.py:32 | `c[1].sidigit()` calls a string method that does not exist, so every two-token reason with a known error type raises AttributeError | `HTTP 404` (also `RULE 16`, `DNS -2` from the test) | accept a known error type followed by one space and a signed integer | not executed | Validator.AsWrittenRaisesOnValidReasons | Validator.ErrorReasonShape |
