/**
 * The format converter: the primary decoder's line-by-line framing run
 * over raw bytes (the Python 2 `str` of the original, one character per
 * byte).  It buffers the inner-header lines and the http-header and
 * payload bytes of each record, then re-emits them in the keyed-segment
 * layout, the whole buffer compressed into one `snapshot` segment.
 *
 * Pure functions specify one step, one record and the whole stream; the
 * `Reader` class, whose fields are the original's buffers and cursors, is
 * proved against them.
 */
module SpageToOffpage {
  import opened Basics
  import opened Text
  import opened Validator

  /** Inner-header lines with these prefixes are not copied. */
  const ORIGINAL_SIZE_PREFIX := "Original-Size:"
  const STORE_SIZE_PREFIX := "Store-Size: "

  /** The header keys of the two size lines `_generate` writes. */
  const CONTENT_TYPE := "Content-Type"
  const ORIGINAL_SIZE := "Original-Size"

  /** The byte `:`. */
  const COLON: Byte := 58

  /** Longer inner-header lines are skipped. */
  const MAX_LINE := 1024

  /** zlib: `compress`, and `decompress`, which gives None where zlib raises. */
  datatype Zlib = Zlib(compress: seq<Byte> -> seq<Byte>, decompress: seq<Byte> -> Option<seq<Byte>>)

  /** Which of `_read_inner_header`, `_read_http_header`, `_read_data` `_read` points at. */
  datatype Phase = InnerHeader | HttpHeader | Data

  /** The converter's fields, with the bytes of the stream and a cursor into them. */
  datatype State = State(
    source: Source,
    pos: nat,
    url: Option<seq<Byte>>,
    urlLatest: Option<seq<Byte>>,
    storeSize: int,
    inner: seq<Byte>,
    data: seq<Byte>,
    phase: Phase)
  {
    function input(): seq<Byte> { source.bytes }

    predicate Valid() { pos <= |input()| }
  }

  /** One call of a `_read_*` method: go on reading, emit a record, stop, or raise. */
  datatype Step = Continue(next: State) | Emit(rec: seq<Byte>, next: State) | Stop | Fail(err: Error)

  /** One call of `_read()` with its tail calls. */
  datatype Outcome = Emitted(rec: seq<Byte>, next: State) | Ended | Failed(err: Error)

  /** What `read` yields before it returns or raises. */
  datatype Converted = Converted(records: seq<seq<Byte>>, error: Option<Error>)

  /** The state `__init__` leaves. */
  function Start(input: seq<Byte>): (s: State)
    ensures s.Valid() && s.pos == 0 && s.phase == InnerHeader && s.url.None? && s.urlLatest.None?
    ensures s.inner == [] && s.data == [] && s.storeSize == 0
  {
    State(Source(input), 0, None, None, 0, [], [], InnerHeader)
  }

  /** `_reset`: a held URL becomes the current one; the size and both buffers are cleared. */
  function ResetState(s: State): (r: State)
    ensures r.input() == s.input() && r.pos == s.pos
    ensures r.url == s.urlLatest && r.urlLatest.None? && r.storeSize == 0
    ensures r.inner == [] && r.data == [] && r.phase == InnerHeader
  {
    s.(url := s.urlLatest, storeSize := 0, inner := [], data := [], phase := InnerHeader, urlLatest := None)
  }

  /** Python truthiness of an optional byte string. */
  predicate Truthy(u: Option<seq<Byte>>)
  {
    u.Some? && |u.value| > 0
  }

  /** `simple_check_url` on a byte line. */
  predicate IsUrl(line: seq<Byte>)
  {
    SimpleCheckUrl(Latin1(line))
  }

  /** `line.startswith(prefix)` on a byte line. */
  predicate HasPrefix(line: seq<Byte>, prefix: string)
  {
    StartsWith(Latin1(line), prefix)
  }

  /** `int(line.split(":")[1].strip())`: the text between the first and a second colon. */
  function StoreSizeOf(line: seq<Byte>): (r: Result<int>)
    requires COLON in line
  {
    CountPresent(line, COLON);
    ParseStripped(Latin1(ByteStrip(Split(line, COLON)[1])))
  }

  // ---------------------------------------------------------------------
  // Inner header
  // ---------------------------------------------------------------------

  /**
   * What a stripped line does in the inner-header state (`t` has the line
   * consumed). The buffers are taken to be `io.BytesIO` objects, which are
   * always true, so the test of the inner-header buffer in the blank-line
   * branch is dropped and only the URL is tested.
   */
  function InnerLine(t: State, l: seq<Byte>): (r: Step)
    requires t.Valid()
    ensures r.Continue? || r.Fail?
    ensures r.Continue? ==> r.next.Valid() && r.next.input() == t.input() && r.next.pos == t.pos
  {
    if |l| <= 0 && Truthy(t.url) then Continue(t.(phase := HttpHeader))
    else if |l| > MAX_LINE then Continue(t)
    else if IsUrl(l) then Continue(ResetState(t).(url := Some(l)))
    else if HasPrefix(l, ORIGINAL_SIZE_PREFIX) then Continue(t)
    else if HasPrefix(l, STORE_SIZE_PREFIX) then
      assert Latin1(l)[10] == ':';
      match StoreSizeOf(l)
      case Ok(n) => Continue(t.(storeSize := n))
      case Err(e) => Fail(e)
    else Continue(t.(inner := t.inner + l + [10]))
  }

  /** `_read_inner_header` up to its tail call. */
  function InnerStep(s: State): (r: Step)
    requires s.Valid()
    ensures r.Continue? ==> r.next.Valid() && r.next.input() == s.input() && r.next.pos > s.pos
    ensures !r.Emit?
  {
    if s.pos == |s.input()| then Stop
    else
      var e := LineEnd(s.input(), s.pos);
      InnerLine(s.(pos := e), ByteStrip(s.input()[s.pos..e]))
  }

  // ---------------------------------------------------------------------
  // Http header
  // ---------------------------------------------------------------------

  /** What a raw line does in the http-header state (`t` has the line consumed). */
  function HttpLine(t: State, line: seq<Byte>): (r: State)
    ensures r.input() == t.input() && r.pos == t.pos
  {
    var nline := ByteStrip(line);
    if |nline| == 0 then t.(data := t.data + line, phase := Data)
    else if IsUrl(nline) then t.(urlLatest := Some(nline), phase := Data)
    else t.(data := t.data + line)
  }

  /** `_read_http_header` up to its tail call. */
  function HttpStep(s: State): (r: Step)
    requires s.Valid()
    ensures r.Continue? ==> r.next.Valid() && r.next.input() == s.input() && r.next.pos > s.pos
    ensures !r.Emit? && !r.Fail?
  {
    if s.pos == |s.input()| then Stop
    else
      var e := LineEnd(s.input(), s.pos);
      Continue(HttpLine(s.(pos := e), s.input()[s.pos..e]))
  }

  // ---------------------------------------------------------------------
  // Payload and output
  // ---------------------------------------------------------------------

  /** `zlib.decompress(raw)`, or `raw` itself when that raises. */
  function Decompressed(z: Zlib, raw: seq<Byte>): seq<Byte>
  {
    match z.decompress(raw)
    case Some(d) => d
    case None => raw
  }

  /** The bytes `_generate` stores: the buffer compressed, or nothing when the buffer is empty. */
  function Stored(z: Zlib, data: seq<Byte>): seq<Byte>
  {
    if |data| > 0 then z.compress(data) else data
  }

  /** `b"<key>: snapshot, %d;\n" % n`. */
  function SizeLine(key: string, n: nat): string
  {
    key + ": snapshot, " + NatToString(n) + ";\n"
  }

  /**
   * `_generate`: the URL line, the buffered inner header, the two size
   * lines, a blank line, the stored bytes and a newline.
   */
  function Output(z: Zlib, url: seq<Byte>, inner: seq<Byte>, data: seq<Byte>): seq<Byte>
  {
    var stored := Stored(z, data);
    url + [10] + inner +
    Utf8Encode(SizeLine(CONTENT_TYPE, |stored|)) + Utf8Encode(SizeLine(ORIGINAL_SIZE, |data|)) +
    [10] + stored + [10]
  }

  /** `return self._generate()`: writing a URL that is None raises. */
  function Generated(z: Zlib, t: State): (r: Step)
    ensures r.Emit? || r.Fail?
    ensures r.Emit? ==> r.next == t
  {
    match t.url
    case None => Fail(TypeError("write"))
    case Some(u) => Emit(Output(z, u, t.inner, t.data), t)
  }

  /** `_read_data`. */
  function DataStep(z: Zlib, s: State): (r: Step)
    requires s.Valid()
    ensures r.Emit? ==> r.next.Valid() && r.next.input() == s.input() && r.next.pos >= s.pos
    ensures !r.Continue?
  {
    if s.storeSize <= 0 || s.urlLatest.Some? then Generated(z, s)
    else
      var e := ReadEnd(s.input(), s.pos, s.storeSize);
      var d := Decompressed(z, s.input()[s.pos..e]);
      if |d| == 0 then Stop
      else if |s.data| <= 0 && |d| >= 2 && d[..2] == [13, 10] then
        var e2 := ReadEnd(s.input(), e, 2);
        Generated(z, s.(pos := e2, data := s.data + (d[2..] + s.input()[e..e2])))
      else
        Generated(z, s.(pos := e, data := s.data + d))
  }

  // ---------------------------------------------------------------------
  // Records and the stream
  // ---------------------------------------------------------------------

  /** The `_read_*` method the state points at. */
  function StepOf(z: Zlib, s: State): (r: Step)
    requires s.Valid()
    ensures r.Continue? ==> s.phase != Data && r.next.Valid() && r.next.input() == s.input() && r.next.pos > s.pos
    ensures r.Emit? ==> s.phase == Data && r.next.Valid() && r.next.input() == s.input() && r.next.pos >= s.pos
  {
    match s.phase
    case InnerHeader => InnerStep(s)
    case HttpHeader => HttpStep(s)
    case Data => DataStep(z, s)
  }

  /** `_read()`: steps until a record is generated, the stream ends, or an error is raised. */
  function Next(z: Zlib, s: State): (o: Outcome)
    requires s.Valid()
    ensures o.Emitted? ==> o.next.Valid() && o.next.input() == s.input() && o.next.pos >= s.pos
    ensures o.Emitted? && s.phase != Data ==> o.next.pos > s.pos
    decreases |s.input()| - s.pos
  {
    match StepOf(z, s)
    case Continue(t) => Next(z, t)
    case Emit(r, t) => Emitted(r, t)
    case Stop => Ended
    case Fail(e) => Failed(e)
  }

  function Rank(p: Phase): nat
  {
    if p == Data then 1 else 0
  }

  /** `read`: every record `_read()` generates, with a reset after each, until it stops or raises. */
  function ConvertAll(z: Zlib, s: State): Converted
    requires s.Valid()
    decreases |s.input()| - s.pos, Rank(s.phase)
  {
    match Next(z, s)
    case Emitted(r, t) =>
      var rest := ConvertAll(z, ResetState(t));
      Converted([r] + rest.records, rest.error)
    case Ended => Converted([], None)
    case Failed(e) => Converted([], Some(e))
  }

  /** After a record, the rest of the stream is converted from the reset state. */
  lemma {:induction false} ConvertAllEmitted(z: Zlib, s: State, done: seq<seq<Byte>>)
    requires s.Valid() && Next(z, s).Emitted?
    ensures var o := Next(z, s); var rest := ConvertAll(z, ResetState(o.next));
      ConvertAll(z, s) == Converted([o.rec] + rest.records, rest.error) &&
      done + ConvertAll(z, s).records == (done + [o.rec]) + rest.records
  {
  }

  /** What a `_read_*` call signals once it does not go on reading. */
  datatype Signal = Yield(rec: seq<Byte>) | StopIteration | Raise(err: Error)

  /** A method's signal and new state are those the specification's step gives. */
  predicate StepAgrees(st: Step, sig: Option<Signal>, after: State)
  {
    match st
    case Continue(t) => sig.None? && after == t
    case Emit(r, t) => sig == Some(Yield(r)) && after == t
    case Stop => sig == Some(StopIteration)
    case Fail(e) => sig == Some(Raise(e))
  }

  /** The converter over one stream. */
  class Reader {
    const input: seq<Byte>
    var pos: nat
    var url: Option<seq<Byte>>
    var urlLatest: Option<seq<Byte>>
    var storeSize: int
    var inner: seq<Byte>
    var data: seq<Byte>
    var phase: Phase

    function Current(): State
      reads this
    {
      State(Source(input), pos, url, urlLatest, storeSize, inner, data, phase)
    }

    predicate Valid()
      reads this
    {
      pos <= |input|
    }

    constructor (stream: seq<Byte>)
      ensures Valid() && Current() == Start(stream)
    {
      input := stream;
      pos := 0;
      url := None;
      urlLatest := None;
      storeSize := 0;
      inner := [];
      data := [];
      phase := InnerHeader;
    }

    /** `_reset`. */
    method Reset()
      modifies this
      ensures Current() == ResetState(old(Current()))
    {
      url := urlLatest;
      storeSize := 0;
      inner := [];
      data := [];
      phase := InnerHeader;
      urlLatest := None;
    }

    /** `self._fp.readline()`. */
    method ReadLine() returns (line: seq<Byte>)
      requires Valid()
      modifies this`pos
      ensures Valid() && pos == LineEnd(input, old(pos)) && line == input[old(pos)..pos]
    {
      var e := pos;
      while e < |input| && input[e] != 10
        invariant pos <= e <= |input|
        invariant LineEnd(input, pos) == LineEnd(input, e)
      {
        e := e + 1;
      }
      if e < |input| {
        e := e + 1;
      }
      line := input[pos..e];
      pos := e;
    }

    /** `self._fp.read(n)`. */
    method ReadBytes(n: nat) returns (b: seq<Byte>)
      requires Valid()
      modifies this`pos
      ensures Valid() && pos == ReadEnd(input, old(pos), n) && b == input[old(pos)..pos]
    {
      var e := if pos + n <= |input| then pos + n else |input|;
      b := input[pos..e];
      pos := e;
    }

    /** `_read_inner_header`, without its tail call. */
    method ReadInnerHeader() returns (sig: Option<Signal>)
      requires Valid() && phase == InnerHeader
      modifies this
      ensures Valid()
      ensures StepAgrees(InnerStep(old(Current())), sig, Current())
    {
      var line := ReadLine();
      if |line| == 0 {
        return Some(StopIteration);
      }
      sig := ApplyInnerLine(ByteStrip(line));
    }

    /** The body of `_read_inner_header` once the line is stripped. */
    method ApplyInnerLine(l: seq<Byte>) returns (sig: Option<Signal>)
      requires Valid()
      modifies this
      ensures Valid()
      ensures StepAgrees(InnerLine(old(Current()), l), sig, Current())
    {
      sig := None;
      if |l| <= 0 && url.Some? && |url.value| > 0 {
        phase := HttpHeader;
      } else if |l| > MAX_LINE {
      } else if IsUrl(l) {
        Reset();
        url := Some(l);
      } else if HasPrefix(l, ORIGINAL_SIZE_PREFIX) {
      } else if HasPrefix(l, STORE_SIZE_PREFIX) {
        assert Latin1(l)[10] == ':';
        var n := StoreSizeOf(l);
        if n.Err? {
          return Some(Raise(n.error));
        }
        storeSize := n.value;
      } else {
        inner := inner + l;
        inner := inner + [10];
      }
    }

    /** `_read_http_header`, without its tail call. */
    method ReadHttpHeader() returns (sig: Option<Signal>)
      requires Valid() && phase == HttpHeader
      modifies this
      ensures Valid()
      ensures StepAgrees(HttpStep(old(Current())), sig, Current())
    {
      var line := ReadLine();
      if |line| == 0 {
        return Some(StopIteration);
      }
      ApplyHttpLine(line);
      sig := None;
    }

    /** The body of `_read_http_header` once a line is read. */
    method ApplyHttpLine(line: seq<Byte>)
      modifies this
      ensures Current() == HttpLine(old(Current()), line)
    {
      var nline := ByteStrip(line);
      if |nline| == 0 {
        data := data + line;
        phase := Data;
      } else if IsUrl(nline) {
        urlLatest := Some(nline);
        phase := Data;
      } else {
        data := data + line;
      }
    }

    /** `_read_data`. */
    method ReadData(z: Zlib) returns (sig: Option<Signal>)
      requires Valid() && phase == Data
      modifies this
      ensures Valid()
      ensures StepAgrees(DataStep(z, old(Current())), sig, Current())
    {
      if storeSize <= 0 || urlLatest.Some? {
        var g := Generate(z);
        return Some(g);
      }
      var raw := ReadBytes(storeSize);
      var d := Decompressed(z, raw);
      if |d| == 0 {
        return Some(StopIteration);
      }
      if |data| <= 0 && |d| >= 2 && d[..2] == [13, 10] {
        var o := ReadBytes(2);
        d := d[2..] + o;
      }
      data := data + d;
      var g := Generate(z);
      sig := Some(g);
    }

    /** `_generate`: the output buffer written piece by piece. */
    method Generate(z: Zlib) returns (sig: Signal)
      ensures Generated(z, Current()).Emit? ==> sig == Yield(Generated(z, Current()).rec)
      ensures Generated(z, Current()).Fail? ==> sig == Raise(Generated(z, Current()).err)
    {
      if url.None? {
        return Raise(TypeError("write"));
      }
      var out := url.value;
      out := out + [10];
      out := out + inner;
      var stored := data;
      if |data| > 0 {
        stored := z.compress(data);
      }
      out := out + Utf8Encode(SizeLine(CONTENT_TYPE, |stored|));
      out := out + Utf8Encode(SizeLine(ORIGINAL_SIZE, |data|));
      out := out + [10];
      out := out + stored;
      out := out + [10];
      sig := Yield(out);
    }

    /** `_read()`. */
    method ReadRecord(z: Zlib) returns (sig: Signal)
      requires Valid()
      modifies this
      ensures Valid()
      ensures match Next(z, old(Current()))
        case Emitted(r, t) => sig == Yield(r) && Current() == t
        case Ended => sig == StopIteration
        case Failed(e) => sig == Raise(e)
    {
      while true
        invariant Valid()
        invariant Next(z, Current()) == Next(z, old(Current()))
        decreases |input| - pos
      {
        ghost var before := Current();
        var step: Option<Signal>;
        match phase {
          case InnerHeader => step := ReadInnerHeader();
          case HttpHeader => step := ReadHttpHeader();
          case Data => step := ReadData(z);
        }
        assert StepAgrees(StepOf(z, before), step, Current());
        if step.Some? {
          return step.value;
        }
      }
    }

    /** `read`: yield each record and reset, until the stream ends or an error is raised. */
    method Read(z: Zlib) returns (records: seq<seq<Byte>>, err: Option<Error>)
      requires Valid()
      modifies this
      ensures Converted(records, err) == ConvertAll(z, old(Current()))
    {
      records := [];
      while true
        invariant Valid()
        invariant ConvertAll(z, old(Current())) ==
          Converted(records + ConvertAll(z, Current()).records, ConvertAll(z, Current()).error)
        decreases |input| - pos, Rank(phase)
      {
        ghost var before := Current();
        var sig := ReadRecord(z);
        match sig {
          case Yield(r) =>
            ConvertAllEmitted(z, before, records);
            records := records + [r];
            Reset();
          case StopIteration =>
            return records, None;
          case Raise(e) =>
            return records, Some(e);
        }
      }
    }
  }
}
