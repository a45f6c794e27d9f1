/**
 * The writer pipeline: the record processor (sizes, Type, compression,
 * validation), the encoder (the exact byte layout) and the record writer
 * that joins them and appends to a stream.
 */
module SpageWriter {
  import opened Basics
  import opened Text
  import opened DefaultSchema
  import opened Validator

  /** A record between the processor and the encoder; `http == None` is a removed key. */
  datatype Record = Record(
    url: string,
    inner: map<string, Value>,
    http: Option<seq<(string, string)>>,
    data: Option<seq<Byte>>)

  /**
   * The processor's configuration: whether to compress, the compressor
   * (`zlib.compress`), the schema check that runs after default filling,
   * and the time the Fetch-Time default provider returns.
   */
  datatype Processor = Processor(
    compress: bool,
    compressor: seq<Byte> -> seq<Byte>,
    schemaOk: Record -> bool,
    now: string)

  // ---------------------------------------------------------------------
  // Processor
  // ---------------------------------------------------------------------

  /** The record before validation, or the ValueError the size rules raise. */
  function Normalised(p: Processor, rec: Record): Result<Record>
  {
    var http := if rec.http.Some? && |rec.http.value| == 0 then None else rec.http;
    var ih := rec.inner;
    match rec.data
    case None =>
      var typed := if TYPE in ih then ih else ih[TYPE := Str(FLAT)];
      Ok(Record(rec.url, typed - {ORIGINAL_SIZE, STORE_SIZE}, http, None))
    case Some(d) =>
      var rType := if TYPE in ih then ih[TYPE] else Null;
      if rType == Null then
        if ORIGINAL_SIZE in ih then Err(ValueError("do not specify Original-Size without Type"))
        else
          var stored := if p.compress then p.compressor(d) else d;
          var t := if p.compress then COMPRESSED else FLAT;
          Ok(Record(rec.url, ih[ORIGINAL_SIZE := Num(|d|)][TYPE := Str(t)][STORE_SIZE := Num(|stored|)],
                    http, Some(stored)))
      else if (rType == Str(COMPRESSED) || rType == Str(DELETED)) && ORIGINAL_SIZE !in ih then
        Err(ValueError("inner_header require Original-Size"))
      else if rType == Str(FLAT) then
        Ok(Record(rec.url, ih[ORIGINAL_SIZE := Num(|d|)][STORE_SIZE := Num(|d|)], http, Some(d)))
      else
        Ok(Record(rec.url, ih[STORE_SIZE := Num(|d|)], http, Some(d)))
  }

  /** `validate`: fill the inner header's defaults, then apply the schema check. */
  function Validated(p: Processor, rec: Record): Result<Record>
  {
    SchemaKeysDistinct();
    var filled := rec.(inner := WithDefaults(InnerHeaderFields, rec.inner, p.now));
    if p.schemaOk(filled) then Ok(filled) else Err(ValidationError)
  }

  lemma {:induction false} SizeKeysDistinct()
    ensures TYPE != ORIGINAL_SIZE && TYPE != STORE_SIZE && ORIGINAL_SIZE != STORE_SIZE
    ensures Str(FLAT) != Null && Str(COMPRESSED) != Str(FLAT) && Str(DELETED) != Str(FLAT)
  {
    assert TYPE[0] != ORIGINAL_SIZE[0] && TYPE[0] != STORE_SIZE[0] && ORIGINAL_SIZE[0] != STORE_SIZE[0];
    assert FLAT[0] != COMPRESSED[0] && FLAT[0] != DELETED[0];
  }

  /** What `process` returns or raises for a record. */
  function Processed(p: Processor, rec: Record): Result<Record>
  {
    match Normalised(p, rec)
    case Ok(n) => Validated(p, n)
    case Err(e) => Err(e)
  }

  /** `validator.validate(record)`, which fills defaults in place and raises on a violation. */
  method Validate(p: Processor, rec: Record) returns (r: Result<Record>)
    ensures r == Validated(p, rec)
  {
    SchemaKeysDistinct();
    var inner := SetDefaults(InnerHeaderFields, rec.inner, p.now);
    var filled := rec.(inner := inner);
    if p.schemaOk(filled) {
      r := Ok(filled);
    } else {
      r := Err(ValidationError);
    }
  }

  /** `SpageRecordProcessor.process`: normalise the record step by step, then validate it. */
  method Process(p: Processor, rec: Record) returns (r: Result<Record>)
    ensures r == Processed(p, rec)
  {
    SizeKeysDistinct();
    var http := rec.http;
    if http.Some? && |http.value| == 0 {
      http := None;
    }
    var inner := rec.inner;
    var data := rec.data;
    if data.Some? {
      var d := data.value;
      var storeSize := |d|;
      var originalSize := |d|;
      var rType := if TYPE in inner then inner[TYPE] else Null;
      if rType == Null {
        if ORIGINAL_SIZE in inner {
          return Err(ValueError("do not specify Original-Size without Type"));
        }
        inner := inner[ORIGINAL_SIZE := Num(originalSize)];
        if p.compress {
          inner := inner[TYPE := Str(COMPRESSED)];
          d := p.compressor(d);
          storeSize := |d|;
        } else {
          inner := inner[TYPE := Str(FLAT)];
        }
      } else if rType == Str(COMPRESSED) || rType == Str(DELETED) {
        if ORIGINAL_SIZE !in inner {
          return Err(ValueError("inner_header require Original-Size"));
        }
      } else if rType == Str(FLAT) {
        inner := inner[ORIGINAL_SIZE := Num(originalSize)];
      }
      data := Some(d);
      inner := inner[STORE_SIZE := Num(storeSize)];
    } else {
      if TYPE !in inner {
        inner := inner[TYPE := Str(FLAT)];
      }
      if ORIGINAL_SIZE in inner {
        inner := inner - {ORIGINAL_SIZE};
      }
      if STORE_SIZE in inner {
        inner := inner - {STORE_SIZE};
      }
      assert inner == (if TYPE in rec.inner then rec.inner else rec.inner[TYPE := Str(FLAT)]) - {ORIGINAL_SIZE, STORE_SIZE};
    }
    r := Validate(p, Record(rec.url, inner, http, data));
  }

  // ---------------------------------------------------------------------
  // Processor rules
  // ---------------------------------------------------------------------

  /** Type and the two sizes have no default, so validation never adds or changes them. */
  lemma {:induction false} DefaultsKeepTypeAndSizes(ih: map<string, Value>, now: string, k: string)
    requires DistinctKeys(InnerHeaderFields)
    requires k == TYPE || k == ORIGINAL_SIZE || k == STORE_SIZE
    ensures k in WithDefaults(InnerHeaderFields, ih, now) <==> k in ih
    ensures k in ih ==> WithDefaults(InnerHeaderFields, ih, now)[k] == ih[k]
  {
    FieldsWithDefaults();
    assert InnerHeaderFields[1].key == TYPE && InnerHeaderFields[3].key == ORIGINAL_SIZE &&
      InnerHeaderFields[4].key == STORE_SIZE;
    assert k !in DefaultedKeys(InnerHeaderFields);
  }

  /** A processed record is the normalised one with its defaults filled in, and it passed the schema check. */
  lemma {:induction false} ProcessValidates(p: Processor, rec: Record)
    requires Processed(p, rec).Ok?
    ensures Normalised(p, rec).Ok?
    ensures DistinctKeys(InnerHeaderFields)
    ensures Processed(p, rec).value.inner == WithDefaults(InnerHeaderFields, Normalised(p, rec).value.inner, p.now)
    ensures p.schemaOk(Processed(p, rec).value)
    ensures Processed(p, rec).value.url == rec.url
    ensures Processed(p, rec).value.http == if rec.http.Some? && |rec.http.value| == 0 then None else rec.http
  {
    SchemaKeysDistinct();
  }

  /**
   * The size rules raise exactly in two cases, both with a payload: an
   * Original-Size given without a Type, and a compressed or deleted Type
   * given without an Original-Size. Both raise ValueError.
   */
  lemma {:induction false} NormalisedRaises(p: Processor, rec: Record)
    ensures Normalised(p, rec).Err? <==>
      rec.data.Some? &&
      (((TYPE !in rec.inner || rec.inner[TYPE] == Null) && ORIGINAL_SIZE in rec.inner) ||
       (TYPE in rec.inner && (rec.inner[TYPE] == Str(COMPRESSED) || rec.inner[TYPE] == Str(DELETED)) &&
        ORIGINAL_SIZE !in rec.inner))
    ensures Normalised(p, rec).Err? ==> Normalised(p, rec).error.ValueError?
  {
    SizeKeysDistinct();
  }

  /**
   * Data present and no Type: a caller's Original-Size is a ValueError,
   * and nothing else is; otherwise Original-Size is the data length and
   * Type and the stored bytes follow the compression setting, before and
   * after validation.
   */
  lemma {:induction false} ProcessInfersType(p: Processor, rec: Record)
    requires rec.data.Some?
    requires TYPE !in rec.inner || rec.inner[TYPE] == Null
    ensures Normalised(p, rec).Err? <==> ORIGINAL_SIZE in rec.inner
    ensures ORIGINAL_SIZE in rec.inner ==> Processed(p, rec).Err? && Processed(p, rec).error.ValueError?
    ensures ORIGINAL_SIZE !in rec.inner ==>
      var n := Normalised(p, rec).value;
      && n.inner[ORIGINAL_SIZE] == Num(|rec.data.value|)
      && n.inner[TYPE] == Str(if p.compress then COMPRESSED else FLAT)
      && n.data == Some(if p.compress then p.compressor(rec.data.value) else rec.data.value)
    ensures Processed(p, rec).Ok? ==>
      var r := Processed(p, rec).value;
      && r.inner[ORIGINAL_SIZE] == Num(|rec.data.value|)
      && r.inner[TYPE] == Str(if p.compress then COMPRESSED else FLAT)
      && r.data == Some(if p.compress then p.compressor(rec.data.value) else rec.data.value)
  {
    SizeKeysDistinct();
    NormalisedRaises(p, rec);
    if Processed(p, rec).Ok? {
      ProcessValidates(p, rec);
      DefaultsKeepTypeAndSizes(Normalised(p, rec).value.inner, p.now, TYPE);
      DefaultsKeepTypeAndSizes(Normalised(p, rec).value.inner, p.now, ORIGINAL_SIZE);
    }
  }

  /**
   * Data present and an explicit Type: compressed or deleted without
   * Original-Size is a ValueError, and nothing else is; the data is stored
   * unchanged; flat sets Original-Size to the data length whatever the
   * caller gave; any other Type keeps the caller's Original-Size.
   */
  lemma {:induction false} ProcessExplicitType(p: Processor, rec: Record)
    requires rec.data.Some?
    requires TYPE in rec.inner && rec.inner[TYPE] != Null
    ensures Normalised(p, rec).Err? <==>
      (rec.inner[TYPE] == Str(COMPRESSED) || rec.inner[TYPE] == Str(DELETED)) && ORIGINAL_SIZE !in rec.inner
    ensures (rec.inner[TYPE] == Str(COMPRESSED) || rec.inner[TYPE] == Str(DELETED)) && ORIGINAL_SIZE !in rec.inner ==>
      Processed(p, rec).Err? && Processed(p, rec).error.ValueError?
    ensures Normalised(p, rec).Ok? ==>
      var n := Normalised(p, rec).value;
      && n.data == rec.data
      && n.inner[TYPE] == rec.inner[TYPE]
      && (rec.inner[TYPE] == Str(FLAT) ==> n.inner[ORIGINAL_SIZE] == Num(|rec.data.value|))
      && (rec.inner[TYPE] != Str(FLAT) ==>
            (ORIGINAL_SIZE in n.inner <==> ORIGINAL_SIZE in rec.inner) &&
            (ORIGINAL_SIZE in rec.inner ==> n.inner[ORIGINAL_SIZE] == rec.inner[ORIGINAL_SIZE]))
    ensures Processed(p, rec).Ok? ==>
      var r := Processed(p, rec).value;
      && r.data == rec.data
      && r.inner[TYPE] == rec.inner[TYPE]
      && (rec.inner[TYPE] == Str(FLAT) ==> r.inner[ORIGINAL_SIZE] == Num(|rec.data.value|))
      && (rec.inner[TYPE] != Str(FLAT) ==>
            (ORIGINAL_SIZE in r.inner <==> ORIGINAL_SIZE in rec.inner) &&
            (ORIGINAL_SIZE in rec.inner ==> r.inner[ORIGINAL_SIZE] == rec.inner[ORIGINAL_SIZE]))
  {
    SizeKeysDistinct();
    NormalisedRaises(p, rec);
    if Processed(p, rec).Ok? {
      ProcessValidates(p, rec);
      DefaultsKeepTypeAndSizes(Normalised(p, rec).value.inner, p.now, TYPE);
      DefaultsKeepTypeAndSizes(Normalised(p, rec).value.inner, p.now, ORIGINAL_SIZE);
    }
  }

  lemma {:induction false} NormalisedStoreSize(p: Processor, rec: Record)
    requires rec.data.Some? && Normalised(p, rec).Ok?
    ensures var n := Normalised(p, rec).value;
      n.data.Some? && STORE_SIZE in n.inner && n.inner[STORE_SIZE] == Num(|n.data.value|)
  {
    SizeKeysDistinct();
  }

  /** Whenever data is present, Store-Size is the length of the bytes actually stored. */
  lemma {:induction false} ProcessStoreSize(p: Processor, rec: Record)
    requires rec.data.Some? && Processed(p, rec).Ok?
    ensures Processed(p, rec).value.data.Some?
    ensures STORE_SIZE in Processed(p, rec).value.inner
    ensures Processed(p, rec).value.inner[STORE_SIZE] == Num(|Processed(p, rec).value.data.value|)
  {
    ProcessValidates(p, rec);
    var n := Normalised(p, rec).value;
    NormalisedStoreSize(p, rec);
    DefaultsKeepTypeAndSizes(n.inner, p.now, STORE_SIZE);
  }

  lemma {:induction false} NormalisedNoData(p: Processor, rec: Record)
    requires rec.data.None?
    ensures Normalised(p, rec).Ok?
    ensures var n := Normalised(p, rec).value;
      && n.data.None?
      && ORIGINAL_SIZE !in n.inner && STORE_SIZE !in n.inner
      && TYPE in n.inner && n.inner[TYPE] == if TYPE in rec.inner then rec.inner[TYPE] else Str(FLAT)
  {
    SizeKeysDistinct();
  }

  /**
   * Data absent: Type defaults to flat (an explicit one is kept), both
   * sizes are removed, and the record has no data.
   */
  lemma {:induction false} ProcessNoData(p: Processor, rec: Record)
    requires rec.data.None? && Processed(p, rec).Ok?
    ensures Processed(p, rec).value.data.None?
    ensures ORIGINAL_SIZE !in Processed(p, rec).value.inner && STORE_SIZE !in Processed(p, rec).value.inner
    ensures TYPE in Processed(p, rec).value.inner
    ensures Processed(p, rec).value.inner[TYPE] == if TYPE in rec.inner then rec.inner[TYPE] else Str(FLAT)
  {
    ProcessValidates(p, rec);
    NormalisedNoData(p, rec);
    var n := Normalised(p, rec).value;
    DefaultsKeepTypeAndSizes(n.inner, p.now, TYPE);
    DefaultsKeepTypeAndSizes(n.inner, p.now, ORIGINAL_SIZE);
    DefaultsKeepTypeAndSizes(n.inner, p.now, STORE_SIZE);
  }

  // ---------------------------------------------------------------------
  // Encoder
  // ---------------------------------------------------------------------

  /** `str(v)`, with a timestamp already in the fixed time format. */
  function ValueText(v: Value): string
  {
    match v
    case Str(s) => s
    case Num(n) => IntToString(n)
    case Time(t) => t
    case Null => "None"
  }

  /** One inner-header line as the encoder writes it, newline included. */
  function HeaderLine(k: string, v: Value): string
  {
    Strip(k) + ": " + Strip(ValueText(v)) + "\n"
  }

  /** The lines for the configured keys present with a non-None value, in configured order. */
  function HeaderBlock(keys: seq<string>, ih: map<string, Value>): string
  {
    if |keys| == 0 then ""
    else
      HeaderBlock(keys[..|keys| - 1], ih) + KeyLine(keys[|keys| - 1], ih)
  }

  /** The line one key contributes to the block. */
  function KeyLine(k: string, ih: map<string, Value>): string
  {
    if k in ih && ih[k] != Null then HeaderLine(k, ih[k]) else ""
  }

  lemma {:induction false} HeaderBlockStep(keys: seq<string>, ih: map<string, Value>, i: nat)
    requires i < |keys|
    ensures HeaderBlock(keys[..i + 1], ih) == HeaderBlock(keys[..i], ih) + KeyLine(keys[i], ih)
  {
    assert keys[..i + 1][..i] == keys[..i];
  }

  /**
   * `_inner_header_str`: the header lines with the final newline trimmed
   * (an empty block stays empty).
   */
  method InnerHeaderStr(keys: seq<string>, ih: map<string, Value>) returns (s: string)
    ensures |HeaderBlock(keys, ih)| == 0 ==> s == ""
    ensures |HeaderBlock(keys, ih)| > 0 ==> s + "\n" == HeaderBlock(keys, ih)
  {
    var o := "";
    for i := 0 to |keys|
      invariant o == HeaderBlock(keys[..i], ih)
    {
      HeaderBlockStep(keys, ih, i);
      var k := keys[i];
      if k in ih {
        var v := ih[k];
        if v != Null {
          var line := Strip(k) + ": " + Strip(ValueText(v));
          ghost var before := o;
          o := o + line;
          o := o + "\n";
          AppendAssoc(before, line, "\n");
          assert line + "\n" == KeyLine(k, ih);
        }
      }
    }
    assert keys[..|keys|] == keys;
    s := TrimLastNewline(keys, ih, o);
  }

  lemma {:induction false} AppendAssoc<T>(a: seq<T>, b: seq<T>, c: seq<T>)
    ensures a + b + c == a + (b + c)
  {
  }

  /** `o.read(o.tell() - 1)` after the loop: all but the last character; `read(-1)` reads everything. */
  function TrimLastNewline(keys: seq<string>, ih: map<string, Value>, o: string): (s: string)
    requires o == HeaderBlock(keys, ih)
    ensures |o| == 0 ==> s == ""
    ensures |o| > 0 ==> s + "\n" == o
  {
    var dataLength := |o| - 1;
    if dataLength < 0 then o
    else
      HeaderBlockEndsInNewline(keys, ih);
      assert o[..dataLength] + "\n" == o;
      o[..dataLength]
  }

  lemma {:induction false} HeaderBlockEndsInNewline(keys: seq<string>, ih: map<string, Value>)
    ensures |HeaderBlock(keys, ih)| > 0 ==> HeaderBlock(keys, ih)[|HeaderBlock(keys, ih)| - 1] == '\n'
  {
    if |keys| > 0 {
      HeaderBlockEndsInNewline(keys[..|keys| - 1], ih);
    }
  }

  /** The lines of the http block, `k: v` with both sides stripped. */
  function HttpLines(pairs: seq<(string, string)>): (lines: seq<string>)
    ensures |lines| == |pairs|
  {
    seq(|pairs|, i requires 0 <= i < |pairs| => Strip(pairs[i].0) + ": " + Strip(pairs[i].1))
  }

  /** `_http_header_str`: None for an absent or empty mapping, else the lines joined by CRLF. */
  function HttpHeaderStr(http: Option<seq<(string, string)>>): (r: Option<string>)
    ensures r.None? <==> http.None? || |http.value| == 0
  {
    if http.None? || |http.value| == 0 then None
    else Some(Join(HttpLines(http.value), "\r\n"))
  }

  /** The http section: a bare CRLF when there is no header text, else the block and a blank CRLF line. */
  function HttpSection(http: Option<seq<(string, string)>>): seq<Byte>
  {
    var h := HttpHeaderStr(http);
    if h.None? || |h.value| == 0 then [13, 10] else Utf8Encode(h.value) + [13, 10, 13, 10]
  }

  /** The payload section: the stored bytes and CRLF, or nothing. */
  function DataSection(data: Option<seq<Byte>>): seq<Byte>
  {
    match data
    case None => []
    case Some(d) => d + [13, 10]
  }

  /** The header section: the header lines, then the blank line (two newlines when no line is written). */
  function BlockSection(block: string): seq<Byte>
  {
    Utf8Encode(block) + (if |block| == 0 then [10, 10] else [10])
  }

  /** The record layout: the URL line, the header section, the http section, the payload. */
  function Layout(keys: seq<string>, rec: Record): seq<Byte>
  {
    Utf8Encode(rec.url) + [10] + BlockSection(HeaderBlock(keys, rec.inner)) +
    HttpSection(rec.http) + DataSection(rec.data)
  }

  /** `SpageRecordEncoder.dumps`: the record written step by step into a byte buffer. */
  method Dumps(keys: seq<string>, rec: Record) returns (out: seq<Byte>)
    ensures out == Layout(keys, rec)
  {
    out := Utf8Encode(rec.url);
    out := out + [10];
    ghost var urlLine := out;
    var innerHeaderStr := InnerHeaderStr(keys, rec.inner);
    out := out + Utf8Encode(innerHeaderStr);
    out := out + [10, 10];
    AppendAssoc(urlLine, Utf8Encode(innerHeaderStr), [10, 10]);
    BlockBytes(keys, rec.inner, innerHeaderStr);
    ghost var head := out;
    assert head == urlLine + BlockSection(HeaderBlock(keys, rec.inner));
    var httpHeaderStr := HttpHeaderStr(rec.http);
    if httpHeaderStr.None? || |httpHeaderStr.value| == 0 {
      out := out + [13, 10];
    } else {
      out := out + Utf8Encode(httpHeaderStr.value);
      out := out + [13, 10, 13, 10];
      AppendAssoc(head, Utf8Encode(httpHeaderStr.value), [13, 10, 13, 10]);
    }
    ghost var withHttp := out;
    assert withHttp == head + HttpSection(rec.http);
    if rec.data.Some? {
      out := out + rec.data.value;
      out := out + [13, 10];
      AppendAssoc(withHttp, rec.data.value, [13, 10]);
    }
    assert out == withHttp + DataSection(rec.data);
  }

  lemma {:induction false} BlockBytes(keys: seq<string>, ih: map<string, Value>, ihs: string)
    requires |HeaderBlock(keys, ih)| == 0 ==> ihs == ""
    requires |HeaderBlock(keys, ih)| > 0 ==> ihs + "\n" == HeaderBlock(keys, ih)
    ensures Utf8Encode(ihs) + [10, 10] == BlockSection(HeaderBlock(keys, ih))
  {
    if |HeaderBlock(keys, ih)| > 0 {
      Utf8Append(ihs, "\n");
      assert Utf8Encode("\n") == [10];
      AppendAssoc(Utf8Encode(ihs), [10], [10]);
    }
  }

  // ---------------------------------------------------------------------
  // Record writer
  // ---------------------------------------------------------------------

  /** The `data` argument of `write`: absent (None), bytes, or a value of some other type. */
  datatype DataArg = NoData | Bytes(bytes: seq<Byte>) | NotBytes(typeName: string)

  /** `SpageRecordWriter`: a processor and the encoder's configured key order. */
  datatype RecordWriter = RecordWriter(processor: Processor, keys: seq<string>)

  /** The output stream `f`; only its appended bytes matter here. */
  class Stream {
    var written: seq<Byte>

    constructor ()
      ensures written == []
    {
      written := [];
    }

    method Write(b: seq<Byte>)
      modifies this
      ensures written == old(written) + b
    {
      written := written + b;
    }
  }

  /** `create_writer`: the encoder's keys are the schema's inner-header field order. */
  function CreateWriter(compress: bool, compressor: seq<Byte> -> seq<Byte>, schemaOk: Record -> bool, now: string)
    : (w: RecordWriter)
    ensures w.keys == [VERSION, TYPE, FETCH_TIME, ORIGINAL_SIZE, STORE_SIZE, BATCH_ID, ATTACH, IP_ADDRESS,
                       SPIDER_ADDRESS, DIGEST, USER_AGENT, FETCH_IP, NODE_FETCH_TIME, ERROR_REASON]
    ensures w.processor.compress == compress
    ensures w.processor.compressor == compressor && w.processor.schemaOk == schemaOk && w.processor.now == now
  {
    KeyOrder();
    RecordWriter(Processor(compress, compressor, schemaOk, now), InnerHeaderKeyOrder())
  }

  /** The record `write` builds from its arguments: absent headers become empty ones. */
  function WriteArgs(url: string, inner: Option<map<string, Value>>, http: Option<seq<(string, string)>>,
                     data: seq<Byte>, hasData: bool): Record
  {
    Record(url, if inner.None? then map[] else inner.value,
           Some(if http.None? then [] else http.value),
           if hasData then Some(data) else None)
  }

  /** What one `write` call appends to the stream, or the error it raises. */
  function Encoded(w: RecordWriter, url: string, inner: Option<map<string, Value>>,
                   http: Option<seq<(string, string)>>, data: DataArg): Result<seq<Byte>>
  {
    match data
    case NotBytes(t) => Err(ValueError("bytes-like data is required, not " + t))
    case NoData =>
      var r := Processed(w.processor, WriteArgs(url, inner, http, [], false));
      if r.Ok? then Ok(Layout(w.keys, r.value)) else Err(r.error)
    case Bytes(b) =>
      var r := Processed(w.processor, WriteArgs(url, inner, http, b, true));
      if r.Ok? then Ok(Layout(w.keys, r.value)) else Err(r.error)
  }

  /**
   * `SpageRecordWriter.write`: check the payload type, build and process
   * the record, encode it and append it to `f`. On an error nothing is
   * appended.
   */
  method Write(w: RecordWriter, f: Stream, url: string, inner: Option<map<string, Value>>,
               http: Option<seq<(string, string)>>, data: DataArg) returns (err: Option<Error>)
    modifies f
    ensures err.None? <==> Encoded(w, url, inner, http, data).Ok?
    ensures err.Some? ==> Encoded(w, url, inner, http, data) == Err(err.value) && f.written == old(f.written)
    ensures err.None? ==> f.written == old(f.written) + Encoded(w, url, inner, http, data).value
  {
    if data.NotBytes? {
      return Some(ValueError("bytes-like data is required, not " + data.typeName));
    }
    var rec := WriteArgs(url, inner, http, if data.Bytes? then data.bytes else [], data.Bytes?);
    var r := Process(w.processor, rec);
    if r.Err? {
      return Some(r.error);
    }
    var out := Dumps(w.keys, r.value);
    f.Write(out);
    err := None;
  }

  // ---------------------------------------------------------------------
  // Writer rules
  // ---------------------------------------------------------------------

  /** A payload that is neither bytes nor None is a ValueError, whatever else is passed. */
  lemma {:induction false} WriteRejectsNonBytes(w: RecordWriter, url: string, inner: Option<map<string, Value>>,
                             http: Option<seq<(string, string)>>, t: string)
    ensures Encoded(w, url, inner, http, NotBytes(t)).Err?
    ensures Encoded(w, url, inner, http, NotBytes(t)).error.ValueError?
  {
  }

  /** An absent or empty http header is dropped and encoded as a single bare CRLF. */
  lemma {:induction false} EmptyHttpIsBareCrlf(p: Processor, rec: Record)
    requires rec.http == Some([]) && Processed(p, rec).Ok?
    ensures Processed(p, rec).value.http.None?
    ensures HttpSection(Processed(p, rec).value.http) == [13, 10]
  {
    ProcessValidates(p, rec);
  }
}
