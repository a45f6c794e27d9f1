/**
 * The primary stream decoder: a three-state machine (inner header, http
 * header, data) over the bytes of a stream, read a line at a time. There
 * is no end-of-record marker: a record ends at its payload, or at a URL
 * line met in the http-header state, which is held as the next record's
 * URL.
 *
 * The pure functions below are the specification (one step, one record,
 * the whole stream); the `Reader` class is the decoder with its fields
 * updated in place, and each of its methods is proved against them.
 */
module SpageReader {
  import opened Basics
  import opened Text
  import opened DefaultSchema
  import opened Validator

  /** Which of `_read_inner_header`, `_read_http_header`, `_read_data` `_read` points at. */
  datatype Phase = InnerHeader | HttpHeader | Data

  /** The dict `_generate` returns. */
  datatype SpageRecord = SpageRecord(
    url: Option<string>,
    inner: map<string, string>,
    http: map<string, string>,
    data: Option<seq<Byte>>)

  /** The decoder's fields, with the stream and a cursor into its bytes. */
  datatype State = State(
    source: Source,
    pos: nat,
    url: Option<string>,
    urlLatest: Option<string>,
    inner: map<string, string>,
    http: map<string, string>,
    data: Option<seq<Byte>>,
    phase: Phase)
  {
    function input(): seq<Byte> { source.bytes }

    predicate Valid() { pos <= |input()| }
  }

  /** One call of a `_read_*` method: go on reading, emit a record, stop, or raise. */
  datatype Step = Continue(next: State) | Emit(rec: SpageRecord, next: State) | Stop | Fail(err: Error)

  /** One call of `_read()` with its tail calls: a record, the end of the sequence, or an error. */
  datatype Outcome = Emitted(rec: SpageRecord, next: State) | Ended | Failed(err: Error)

  /** What `read` yields before it returns or raises. */
  datatype Decoded = Decoded(records: seq<SpageRecord>, error: Option<Error>)

  /** The state `__init__` leaves: nothing read, no URL. */
  function Start(input: seq<Byte>): (s: State)
    ensures s.Valid() && s.pos == 0 && s.phase == InnerHeader
  {
    State(Source(input), 0, None, None, map[], map[], None, InnerHeader)
  }

  /** `_reset`: a held URL becomes the current one; headers and payload are cleared. */
  function ResetState(s: State): (r: State)
    ensures r.input() == s.input() && r.pos == s.pos
    ensures r.url == s.urlLatest && r.urlLatest.None?
    ensures r.inner == map[] && r.http == map[] && r.data.None? && r.phase == InnerHeader
  {
    s.(url := s.urlLatest, inner := map[], http := map[], data := None, phase := InnerHeader, urlLatest := None)
  }

  function Generate(s: State): SpageRecord
  {
    SpageRecord(s.url, s.inner, s.http, s.data)
  }

  /** Python truthiness of an optional str. */
  predicate Truthy(u: Option<string>)
  {
    u.Some? && |u.value| > 0
  }

  /** What a decoded, stripped line does in the inner-header state (`t` has the line consumed). */
  function InnerHeaderLine(t: State, line: string): (r: State)
    ensures r.input() == t.input() && r.pos == t.pos
  {
    if |line| == 0 && t.inner != map[] && Truthy(t.url) then t.(phase := HttpHeader)
    else if |line| > 1024 then t
    else if SimpleCheckUrl(line) then ResetState(t).(url := Some(line))
    else
      match HeaderPair(line)
      case Some((k, v)) => t.(inner := t.inner[k := v])
      case None => t
  }

  /** `_read_inner_header` up to its tail call. */
  function InnerHeaderStep(dec: seq<Byte> -> Option<string>, s: State): (r: Step)
    requires s.Valid()
    ensures r.Continue? ==> r.next.Valid() && r.next.input() == s.input() && r.next.pos > s.pos
    ensures !r.Emit? && !r.Fail?
  {
    if s.pos == |s.input()| then Stop
    else
      var e := LineEnd(s.input(), s.pos);
      var t := s.(pos := e);
      match dec(s.input()[s.pos..e])
      case None => Continue(t)
      case Some(text) => Continue(InnerHeaderLine(t, Strip(text)))
  }

  /** What a decoded, stripped line does in the http-header state (`t` has the line consumed). */
  function HttpHeaderLine(t: State, line: string): (r: State)
    ensures r.input() == t.input() && r.pos == t.pos
  {
    if |line| == 0 then t.(phase := Data)
    else if SimpleCheckUrl(line) then t.(urlLatest := Some(line), phase := Data)
    else
      match HeaderPair(line)
      case Some((k, v)) => t.(http := t.http[k := v])
      case None => t
  }

  /** `_read_http_header` up to its tail call. */
  function HttpHeaderStep(dec: seq<Byte> -> Option<string>, s: State): (r: Step)
    requires s.Valid()
    ensures r.Continue? ==> r.next.Valid() && r.next.input() == s.input() && r.next.pos > s.pos
    ensures !r.Emit? && !r.Fail?
  {
    if s.pos == |s.input()| then Stop
    else
      var e := LineEnd(s.input(), s.pos);
      var t := s.(pos := e);
      match dec(s.input()[s.pos..e])
      case None => Continue(t)
      case Some(text) => Continue(HttpHeaderLine(t, Strip(text)))
  }

  /** `int(inner_header.get('Store-Size', -1))`. */
  function StoreSize(inner: map<string, string>): Result<int>
  {
    if STORE_SIZE in inner then ParseInt(inner[STORE_SIZE]) else Ok(-1)
  }

  /** `_read_data`. */
  function DataStep(s: State): (r: Step)
    requires s.Valid()
    ensures r.Emit? ==> r.next.Valid() && r.next.input() == s.input() && r.next.pos >= s.pos
    ensures !r.Continue?
  {
    match StoreSize(s.inner)
    case Err(e) => Fail(e)
    case Ok(size) =>
      if size < 0 || s.urlLatest.Some? then Emit(Generate(s), s)
      else
        var e := ReadEnd(s.input(), s.pos, size);
        var data := s.input()[s.pos..e];
        if size > 0 && |data| == 0 then Stop
        else if s.http == map[] && |data| >= 2 && data[..2] == [13, 10] then
          var e2 := ReadEnd(s.input(), e, 2);
          var t := s.(pos := e2, data := Some(data[2..] + s.input()[e..e2]));
          Emit(Generate(t), t)
        else
          var t := s.(pos := e, data := Some(data));
          Emit(Generate(t), t)
  }

  /** The `_read_*` method the state points at. */
  function StepOf(dec: seq<Byte> -> Option<string>, s: State): (r: Step)
    requires s.Valid()
    ensures r.Continue? ==> s.phase != Data && r.next.Valid() && r.next.input() == s.input() && r.next.pos > s.pos
    ensures r.Emit? ==> s.phase == Data && r.next.Valid() && r.next.input() == s.input() && r.next.pos >= s.pos
  {
    match s.phase
    case InnerHeader => InnerHeaderStep(dec, s)
    case HttpHeader => HttpHeaderStep(dec, s)
    case Data => DataStep(s)
  }

  /** `_read()`: steps until a record is generated, the stream ends, or an error is raised. */
  function Next(dec: seq<Byte> -> Option<string>, s: State): (o: Outcome)
    requires s.Valid()
    ensures o.Emitted? ==> o.next.Valid() && o.next.input() == s.input() && o.next.pos >= s.pos
    ensures o.Emitted? && s.phase != Data ==> o.next.pos > s.pos
    decreases |s.input()| - s.pos
  {
    match StepOf(dec, s)
    case Continue(t) => Next(dec, t)
    case Emit(r, t) => Emitted(r, t)
    case Stop => Ended
    case Fail(e) => Failed(e)
  }

  function Rank(p: Phase): nat
  {
    if p == Data then 1 else 0
  }

  /** `read`: every record `_read()` generates, with a reset after each, until it stops or raises. */
  function DecodeAll(dec: seq<Byte> -> Option<string>, s: State): Decoded
    requires s.Valid()
    decreases |s.input()| - s.pos, Rank(s.phase)
  {
    match Next(dec, s)
    case Emitted(r, t) =>
      var rest := DecodeAll(dec, ResetState(t));
      Decoded([r] + rest.records, rest.error)
    case Ended => Decoded([], None)
    case Failed(e) => Decoded([], Some(e))
  }

  /** After a record, the rest of the stream is decoded from the reset state. */
  lemma {:induction false} DecodeAllEmitted(dec: seq<Byte> -> Option<string>, s: State, done: seq<SpageRecord>)
    requires s.Valid() && Next(dec, s).Emitted?
    ensures var o := Next(dec, s); var rest := DecodeAll(dec, ResetState(o.next));
      DecodeAll(dec, s) == Decoded([o.rec] + rest.records, rest.error) &&
      done + DecodeAll(dec, s).records == (done + [o.rec]) + rest.records
  {
    match Next(dec, s)
    case Emitted(r, t) =>
      var rest := DecodeAll(dec, ResetState(t));
      assert DecodeAll(dec, s) == Decoded([r] + rest.records, rest.error);
  }

  /** What a `_read_*` call signals once it does not go on reading: a record, the end, or an error. */
  datatype Signal = Yield(rec: SpageRecord) | StopIteration | Raise(err: Error)

  /** A method's signal and new state are those the specification's step gives. */
  predicate StepAgrees(st: Step, sig: Option<Signal>, after: State)
  {
    match st
    case Continue(t) => sig.None? && after == t
    case Emit(r, t) => sig == Some(Yield(r)) && after == t
    case Stop => sig == Some(StopIteration)
    case Fail(e) => sig == Some(Raise(e))
  }

  /** The decoder over one stream. */
  class Reader {
    const input: seq<Byte>
    var pos: nat
    var url: Option<string>
    var urlLatest: Option<string>
    var inner: map<string, string>
    var http: map<string, string>
    var data: Option<seq<Byte>>
    var phase: Phase

    function Current(): State
      reads this
    {
      State(Source(input), pos, url, urlLatest, inner, http, data, phase)
    }

    predicate Valid()
      reads this
    {
      pos <= |input|
    }

    constructor (stream: seq<Byte>)
      ensures Current() == Start(stream)
    {
      input := stream;
      pos := 0;
      url := None;
      urlLatest := None;
      inner := map[];
      http := map[];
      data := None;
      phase := InnerHeader;
    }

    /** `_reset`. */
    method Reset()
      modifies this
      ensures Current() == ResetState(old(Current()))
    {
      url := urlLatest;
      inner := map[];
      http := map[];
      data := None;
      phase := InnerHeader;
      urlLatest := None;
    }

    /** `readline`: the bytes up to and including the next newline, or the rest. */
    method ReadLine() returns (line: seq<Byte>)
      requires Valid()
      modifies this
      ensures Valid() && pos == LineEnd(input, old(pos)) && line == input[old(pos)..pos]
      ensures unchanged(this`url, this`urlLatest, this`inner, this`http, this`data, this`phase)
    {
      var e := pos;
      while e < |input| && input[e] != 10
        invariant pos <= e <= |input|
        invariant LineEnd(input, pos) == LineEnd(input, e)
      {
        e := e + 1;
      }
      if e < |input| {
        e := e + 1;
      }
      line := input[pos..e];
      pos := e;
    }

    /** `read(n)`: up to `n` bytes. */
    method ReadBytes(n: nat) returns (b: seq<Byte>)
      requires Valid()
      modifies this
      ensures Valid() && pos == ReadEnd(input, old(pos), n) && b == input[old(pos)..pos]
      ensures unchanged(this`url, this`urlLatest, this`inner, this`http, this`data, this`phase)
    {
      var e := if pos + n <= |input| then pos + n else |input|;
      b := input[pos..e];
      pos := e;
    }

    /** `_read_inner_header`, without its tail call. */
    method ReadInnerHeader(dec: seq<Byte> -> Option<string>) returns (sig: Option<Signal>)
      requires Valid() && phase == InnerHeader
      modifies this
      ensures Valid()
      ensures StepAgrees(InnerHeaderStep(dec, old(Current())), sig, Current())
    {
      var line := ReadLine();
      if |line| == 0 {
        return Some(StopIteration);
      }
      var text := dec(line);
      if text.None? {
        return None;
      }
      var l := Strip(text.value);
      ApplyInnerHeaderLine(l);
      sig := None;
    }

    /** The body of `_read_inner_header` once a line is decoded and stripped. */
    method ApplyInnerHeaderLine(l: string)
      requires Valid()
      modifies this
      ensures Valid()
      ensures Current() == InnerHeaderLine(old(Current()), l)
    {
      if |l| <= 0 && inner != map[] && Truthy(url) {
        phase := HttpHeader;
      } else if |l| > 1024 {
      } else if SimpleCheckUrl(l) {
        Reset();
        url := Some(l);
      } else {
        var pair := HeaderPair(l);
        if pair.Some? {
          inner := inner[pair.value.0 := pair.value.1];
        }
      }
    }

    /** `_read_http_header`, without its tail call. */
    method ReadHttpHeader(dec: seq<Byte> -> Option<string>) returns (sig: Option<Signal>)
      requires Valid() && phase == HttpHeader
      modifies this
      ensures Valid()
      ensures StepAgrees(HttpHeaderStep(dec, old(Current())), sig, Current())
    {
      var line := ReadLine();
      if |line| == 0 {
        return Some(StopIteration);
      }
      var text := dec(line);
      if text.None? {
        return None;
      }
      var l := Strip(text.value);
      ApplyHttpHeaderLine(l);
      sig := None;
    }

    /** The body of `_read_http_header` once a line is decoded and stripped. */
    method ApplyHttpHeaderLine(l: string)
      requires Valid()
      modifies this
      ensures Valid()
      ensures Current() == HttpHeaderLine(old(Current()), l)
    {
      if |l| == 0 {
        phase := Data;
      } else if SimpleCheckUrl(l) {
        urlLatest, phase := Some(l), Data;
      } else {
        var pair := HeaderPair(l);
        if pair.Some? {
          http := http[pair.value.0 := pair.value.1];
        }
      }
    }

    /** `_read_data`. */
    method ReadData() returns (sig: Option<Signal>)
      requires Valid() && phase == Data
      modifies this
      ensures Valid()
      ensures StepAgrees(DataStep(old(Current())), sig, Current())
    {
      var size := StoreSize(inner);
      if size.Err? {
        return Some(Raise(size.error));
      }
      if size.value < 0 || urlLatest.Some? {
        return Some(Yield(Generate(Current())));
      }
      var d := ReadBytes(size.value);
      if size.value > 0 && |d| == 0 {
        return Some(StopIteration);
      }
      if http == map[] {
        if |d| >= 2 && d[0..2] == [13, 10] {
          var o := ReadBytes(2);
          d := d[2..] + o;
        }
      }
      data := Some(d);
      sig := Some(Yield(Generate(Current())));
    }

    /** `_read()`: the method `_read` points at, called again until it returns or raises. */
    method ReadRecord(dec: seq<Byte> -> Option<string>) returns (sig: Signal)
      requires Valid()
      modifies this
      ensures Valid()
      ensures match Next(dec, old(Current()))
        case Emitted(r, t) => sig == Yield(r) && Current() == t
        case Ended => sig == StopIteration
        case Failed(e) => sig == Raise(e)
    {
      while true
        invariant Valid()
        invariant Next(dec, Current()) == Next(dec, old(Current()))
        decreases |input| - pos
      {
        ghost var before := Current();
        var step: Option<Signal>;
        match phase {
          case InnerHeader => step := ReadInnerHeader(dec);
          case HttpHeader => step := ReadHttpHeader(dec);
          case Data => step := ReadData();
        }
        assert StepAgrees(StepOf(dec, before), step, Current());
        if step.Some? {
          return step.value;
        }
      }
    }

    /** `read`: yield each record and reset, until the stream ends or an error is raised. */
    method Read(dec: seq<Byte> -> Option<string>) returns (records: seq<SpageRecord>, err: Option<Error>)
      requires Valid()
      modifies this
      ensures Decoded(records, err) == DecodeAll(dec, old(Current()))
    {
      records := [];
      while true
        invariant Valid()
        invariant DecodeAll(dec, old(Current())) ==
          Decoded(records + DecodeAll(dec, Current()).records, DecodeAll(dec, Current()).error)
        decreases |input| - pos, Rank(phase)
      {
        ghost var before := Current();
        var sig := ReadRecord(dec);
        match sig {
          case Yield(r) =>
            DecodeAllEmitted(dec, before, records);
            records := records + [r];
            Reset();
          case StopIteration =>
            return records, None;
          case Raise(e) =>
            return records, Some(e);
        }
      }
    }
  }
}
