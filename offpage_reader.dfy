/**
 * The keyed-segment decoder: the same line-by-line framing as the primary
 * decoder, but with one header dict, and a payload cut into named, sized
 * segments declared by the `Content-Type` header (`name,size;name,size;...`).
 *
 * As for the primary decoder, pure functions specify one step, one record
 * and the whole stream, and the `Reader` class is proved against them.
 */
module OffpageReader {
  import opened Basics
  import opened Text
  import opened Validator

  const CONTENT_TYPE := "Content-Type"
  const ORIGINAL_SIZE := "Original-Size"

  /** The header keys whose values are parsed as series. */
  const SERIES: set<string> := {CONTENT_TYPE, ORIGINAL_SIZE}

  /** A header value: a stripped str, or for a series key the list of tuples `_split_series` builds. */
  datatype HeaderValue = Plain(text: string) | Series(tuples: seq<seq<string>>)
  {
    /** What a `for` loop over the value sees: the tuples, or the one-character strs of a plain str. */
    function Items(): (r: seq<seq<string>>)
      ensures Series? ==> r == tuples
      ensures Plain? ==> |r| == |text| && forall i :: 0 <= i < |r| ==> r[i] == [[text[i]]]
    {
      if Series? then tuples else seq(|text|, i requires 0 <= i < |text| => [[text[i]]])
    }
  }

  /** Which of `_read_header`, `_read_data` `_read` points at. */
  datatype Phase = Header | Data

  /** The dict `_generate` returns. */
  datatype OffpageRecord = OffpageRecord(
    url: Option<string>,
    header: map<string, HeaderValue>,
    data: map<string, seq<Byte>>)

  /** The decoder's fields, with the bytes of the stream and a cursor into them. */
  datatype State = State(
    source: Source,
    pos: nat,
    url: Option<string>,
    urlLatest: Option<string>,
    header: map<string, HeaderValue>,
    data: map<string, seq<Byte>>,
    phase: Phase)
  {
    function input(): seq<Byte> { source.bytes }

    predicate Valid() { pos <= |input()| }
  }

  /** One call of a `_read_*` method: go on reading, emit a record, stop, or raise. */
  datatype Step = Continue(next: State) | Emit(rec: OffpageRecord, next: State) | Stop | Fail(err: Error)

  /** One call of `_read()` with its tail calls. */
  datatype Outcome = Emitted(rec: OffpageRecord, next: State) | Ended | Failed(err: Error)

  /** What `read` yields before it returns or raises. */
  datatype Decoded = Decoded(records: seq<OffpageRecord>, error: Option<Error>)

  /** The state `__init__` leaves. */
  function Start(input: seq<Byte>): (s: State)
    ensures s.Valid() && s.pos == 0 && s.phase == Header && s.url.None? && s.urlLatest.None?
  {
    State(Source(input), 0, None, None, map[], map[], Header)
  }

  /** `_reset`: the held URL (always None here) becomes the current one; header and data are cleared. */
  function ResetState(s: State): (r: State)
    ensures r.input() == s.input() && r.pos == s.pos
    ensures r.url == s.urlLatest && r.urlLatest.None?
    ensures r.header == map[] && r.data == map[] && r.phase == Header
  {
    s.(url := s.urlLatest, header := map[], data := map[], phase := Header, urlLatest := None)
  }

  function Generate(s: State): OffpageRecord
  {
    OffpageRecord(s.url, s.header, s.data)
  }

  // ---------------------------------------------------------------------
  // Series
  // ---------------------------------------------------------------------

  /** The pieces of `series.split(';')` that contain a comma, each split on commas, in order. */
  function SplitSeries(series: string): (r: seq<seq<string>>)
  {
    KeepPairs(Split(series, ';'))
  }

  function KeepPairs(pieces: seq<string>): (r: seq<seq<string>>)
    ensures |r| <= |pieces|
  {
    if |pieces| == 0 then []
    else if ',' in pieces[0] then [Split(pieces[0], ',')] + KeepPairs(pieces[1..])
    else KeepPairs(pieces[1..])
  }

  /**
   * Each tuple is a `;`-piece split on its commas, so it has at least two
   * elements; and every `;`-piece with a comma gives a tuple: the series
   * keeps exactly the pieces with a comma (their order is `KeepPairsInOrder`).
   */
  lemma {:induction false} KeepPairsExact(pieces: seq<string>)
    ensures forall t :: t in KeepPairs(pieces) ==> |t| >= 2 && Join(t, ",") in pieces && ',' in Join(t, ",")
    ensures forall p :: p in pieces && ',' in p ==> Split(p, ',') in KeepPairs(pieces)
  {
    if |pieces| > 0 {
      KeepPairsExact(pieces[1..]);
      var p := pieces[0];
      if ',' in p {
        SplitJoin(p, ',');
        CountPositive(p, ',');
      }
      forall q | q in pieces[1..] ensures q in pieces { }
      forall q | q in pieces ensures q == p || q in pieces[1..] {
        var i :| 0 <= i < |pieces| && pieces[i] == q;
        if i > 0 { assert pieces[1..][i - 1] == q; }
      }
    }
  }

  /**
   * The comprehension keeps the pieces in their order: the tuples of two
   * runs of pieces are the tuples of the first run, then those of the second.
   */
  lemma {:induction false} KeepPairsInOrder(xs: seq<string>, ys: seq<string>)
    ensures KeepPairs(xs + ys) == KeepPairs(xs) + KeepPairs(ys)
  {
    if |xs| > 0 {
      assert (xs + ys)[1..] == xs[1..] + ys;
      KeepPairsInOrder(xs[1..], ys);
    } else {
      assert xs + ys == ys;
    }
  }

  /** A sequence holding `c` counts it at least once. */
  lemma {:induction false} CountPositive(s: string, c: char)
    requires c in s
    ensures Count(s, c) > 0
  {
    if s[0] != c {
      assert c in s[1..] by {
        var i :| 0 <= i < |s| && s[i] == c;
        assert s[1..][i - 1] == c;
      }
      CountPositive(s[1..], c);
    }
  }

  /** The tuples of `_split_series` put back together are exactly the comma pieces of the series. */
  lemma {:induction false} SplitSeriesExact(series: string)
    ensures forall t :: t in SplitSeries(series) ==> |t| >= 2 && Join(t, ",") in Split(series, ';')
    ensures forall p :: p in Split(series, ';') && ',' in p ==> Split(p, ',') in SplitSeries(series)
  {
    KeepPairsExact(Split(series, ';'));
  }

  /** A name or size the series separators cannot cut. */
  predicate Atom(t: string)
  {
    ',' !in t && ';' !in t
  }

  /** Every name and size in `pairs` is an atom. */
  predicate Atoms(pairs: seq<(string, string)>)
    decreases |pairs|
  {
    |pairs| == 0 || (Atom(pairs[0].0) && Atom(pairs[0].1) && Atoms(pairs[1..]))
  }

  /** A series as written: `name,size;` for each segment, in order. */
  function SeriesText(pairs: seq<(string, string)>): string
  {
    if |pairs| == 0 then "" else pairs[0].0 + "," + pairs[0].1 + ";" + SeriesText(pairs[1..])
  }

  /** Each segment as the two-element tuple `_split_series` builds for it. */
  function Tuples(pairs: seq<(string, string)>): (r: seq<seq<string>>)
    ensures |r| == |pairs|
  {
    if |pairs| == 0 then [] else [[pairs[0].0, pairs[0].1]] + Tuples(pairs[1..])
  }

  /** Splitting a written series gives back its segments, in order. */
  lemma {:induction false} SeriesRoundTrip(pairs: seq<(string, string)>)
    requires Atoms(pairs)
    ensures SplitSeries(SeriesText(pairs)) == Tuples(pairs)
  {
    if |pairs| == 0 {
      assert Split("", ';') == [[]];
      assert ',' !in [[]][0];
    } else {
      var (n, z) := pairs[0];
      var p := n + "," + z;
      NamedSize(n, z);
      assert SeriesText(pairs) == p + ";" + SeriesText(pairs[1..]);
      SplitCons(p, SeriesText(pairs[1..]));
      KeepPairsCons(p, Split(SeriesText(pairs[1..]), ';'));
      SeriesRoundTrip(pairs[1..]);
    }
  }

  /** A `;` at the end of a series adds an empty piece, which has no comma and is dropped. */
  lemma {:induction false} TrailingSeparator(series: string)
    ensures SplitSeries(series + ";") == SplitSeries(series)
  {
    SplitSnoc(series);
    KeepPairsEmptyLast(Split(series, ';'));
  }

  lemma {:induction false} SplitSnoc(t: string)
    ensures Split(t + ";", ';') == Split(t, ';') + [[]]
  {
    if |t| == 0 {
      assert "" + ";" == [';'];
      assert [';'][1..] == "";
    } else {
      assert (t + ";")[1..] == t[1..] + ";";
      assert (t + ";")[0] == t[0];
      SplitSnoc(t[1..]);
    }
  }

  lemma {:induction false} KeepPairsEmptyLast(pieces: seq<string>)
    ensures KeepPairs(pieces + [[]]) == KeepPairs(pieces)
  {
    if |pieces| == 0 {
      assert pieces + [[]] == [[]];
      assert ',' !in [[]][0];
    } else {
      assert (pieces + [[]])[0] == pieces[0];
      assert (pieces + [[]])[1..] == pieces[1..] + [[]];
      KeepPairsEmptyLast(pieces[1..]);
    }
  }

  /** A `;`-piece with a comma in front of the others adds its tuple in front. */
  lemma {:induction false} KeepPairsCons(p: string, rest: seq<string>)
    requires ',' in p
    ensures KeepPairs([p] + rest) == [Split(p, ',')] + KeepPairs(rest)
  {
    assert ([p] + rest)[0] == p && ([p] + rest)[1..] == rest;
  }

  /** `name,size` splits on its comma into the name and the size. */
  lemma {:induction false} NamedSize(name: string, size: string)
    requires Atom(name) && Atom(size)
    ensures ',' in name + "," + size && ';' !in name + "," + size
    ensures Split(name + "," + size, ',') == [name, size]
  {
    assert (name + "," + size)[|name|] == ',';
    assert name + "," + size == name + [','] + size;
    SplitTwo(name, ',', size);
  }

  /** A piece without the separator in front of the rest splits off as one part. */
  lemma {:induction false} SplitCons(a: string, b: string)
    requires ';' !in a
    ensures Split(a + ";" + b, ';') == [a] + Split(b, ';')
  {
    if |a| == 0 {
      assert a + ";" + b == [';'] + b;
      assert ([';'] + b)[1..] == b;
    } else {
      assert (a + ";" + b)[1..] == a[1..] + ";" + b;
      assert (a + ";" + b)[0] == a[0] && a[0] in a;
      SplitCons(a[1..], b);
      assert [a[0]] + a[1..] == a;
    }
  }

  // ---------------------------------------------------------------------
  // Header state
  // ---------------------------------------------------------------------

  /** The value stored for key `k`: parsed into a series for a series key. */
  function HeaderValueOf(k: string, v: string): (r: HeaderValue)
    ensures r.Series? <==> k in SERIES
  {
    if k in SERIES then Series(SplitSeries(v)) else Plain(v)
  }

  /** What a decoded, stripped line does in the header state (`t` has the line consumed). */
  function HeaderLine(t: State, line: string): (r: State)
    requires t.Valid()
    ensures r.Valid() && r.input() == t.input() && r.pos == t.pos
  {
    if |line| == 0 && t.header != map[] then t.(phase := Data)
    else if |line| > 1024 then t
    else if SimpleCheckUrl(line) then ResetState(t).(url := Some(line))
    else
      match HeaderPair(line)
      case Some((k, v)) => t.(header := t.header[k := HeaderValueOf(k, v)])
      case None => t
  }

  /** `_read_header` up to its tail call. */
  function HeaderStep(dec: seq<Byte> -> Option<string>, s: State): (r: Step)
    requires s.Valid()
    ensures r.Continue? ==> r.next.Valid() && r.next.input() == s.input() && r.next.pos > s.pos
    ensures !r.Emit? && !r.Fail?
  {
    if s.pos == |s.input()| then Stop
    else
      var e := LineEnd(s.input(), s.pos);
      var t := s.(pos := e);
      match dec(s.input()[s.pos..e])
      case None => Continue(t)
      case Some(text) => Continue(HeaderLine(t, Strip(text)))
  }

  // ---------------------------------------------------------------------
  // Data state
  // ---------------------------------------------------------------------

  /** How the segment loop of `_read_data` ends. */
  datatype SegmentsEnd =
    | Filled(data: map<string, seq<Byte>>, pos: nat)  // every segment read
    | Negative(pos: nat)                               // a negative size: emit without the segments
    | Exhausted                                        // a positive size read nothing
    | Broken(err: Error)                               // a tuple that is not a pair, or a size that is not an int

  /**
   * The segment loop from the `i`-th declared segment on, at `pos`, with
   * the segments read so far in `data`.
   */
  function ReadSegments(input: seq<Byte>, pos: nat, segs: seq<seq<string>>, data: map<string, seq<Byte>>): (r: SegmentsEnd)
    requires pos <= |input|
    ensures r.Filled? ==> pos <= r.pos <= |input|
    ensures r.Negative? ==> pos <= r.pos <= |input|
    decreases |segs|
  {
    if |segs| == 0 then Filled(data, pos)
    else if |segs[0]| != 2 then Broken(ValueError("unpack"))
    else
      match ParseInt(segs[0][1])
      case Err(e) => Broken(e)
      case Ok(size) =>
        if size < 0 then Negative(pos)
        else
          var e := ReadEnd(input, pos, size);
          if size > 0 && e == pos then Exhausted
          else ReadSegments(input, e, segs[1..], data[segs[0][0] := input[pos..e]])
  }

  /** `_read_data`: the segments declared by Content-Type, or the lookup error when there is none. */
  function DataStep(s: State): (r: Step)
    requires s.Valid()
    ensures r.Emit? ==> r.next.Valid() && r.next.input() == s.input() && r.next.pos >= s.pos
    ensures !r.Continue?
  {
    if CONTENT_TYPE !in s.header then Fail(KeyError(CONTENT_TYPE))
    else if s.urlLatest.Some? then Emit(Generate(s), s)
    else
      match ReadSegments(s.input(), s.pos, s.header[CONTENT_TYPE].Items(), map[])
      case Filled(d, p) =>
        var t := s.(pos := p, data := d);
        Emit(Generate(t), t)
      case Negative(p) =>
        var t := s.(pos := p);
        Emit(Generate(t), t)
      case Exhausted => Stop
      case Broken(e) => Fail(e)
  }

  function StepOf(dec: seq<Byte> -> Option<string>, s: State): (r: Step)
    requires s.Valid()
    ensures r.Continue? ==> s.phase == Header && r.next.Valid() && r.next.input() == s.input() && r.next.pos > s.pos
    ensures r.Emit? ==> s.phase == Data && r.next.Valid() && r.next.input() == s.input() && r.next.pos >= s.pos
  {
    match s.phase
    case Header => HeaderStep(dec, s)
    case Data => DataStep(s)
  }

  /** `_read()`: steps until a record is generated, the stream ends, or an error is raised. */
  function Next(dec: seq<Byte> -> Option<string>, s: State): (o: Outcome)
    requires s.Valid()
    ensures o.Emitted? ==> o.next.Valid() && o.next.input() == s.input() && o.next.pos >= s.pos
    ensures o.Emitted? && s.phase == Header ==> o.next.pos > s.pos
    decreases |s.input()| - s.pos
  {
    match StepOf(dec, s)
    case Continue(t) => Next(dec, t)
    case Emit(r, t) => Emitted(r, t)
    case Stop => Ended
    case Fail(e) => Failed(e)
  }

  function Rank(p: Phase): nat
  {
    if p == Data then 1 else 0
  }

  /** `read`: every record `_read()` generates, with a reset after each, until it stops or raises. */
  function DecodeAll(dec: seq<Byte> -> Option<string>, s: State): Decoded
    requires s.Valid()
    decreases |s.input()| - s.pos, Rank(s.phase)
  {
    match Next(dec, s)
    case Emitted(r, t) =>
      var rest := DecodeAll(dec, ResetState(t));
      Decoded([r] + rest.records, rest.error)
    case Ended => Decoded([], None)
    case Failed(e) => Decoded([], Some(e))
  }

  /** After a record, the rest of the stream is decoded from the reset state. */
  lemma {:induction false} DecodeAllEmitted(dec: seq<Byte> -> Option<string>, s: State, done: seq<OffpageRecord>)
    requires s.Valid() && Next(dec, s).Emitted?
    ensures var o := Next(dec, s); var rest := DecodeAll(dec, ResetState(o.next));
      DecodeAll(dec, s) == Decoded([o.rec] + rest.records, rest.error) &&
      done + DecodeAll(dec, s).records == (done + [o.rec]) + rest.records
  {
  }

  /** What a `_read_*` call signals once it does not go on reading. */
  datatype Signal = Yield(rec: OffpageRecord) | StopIteration | Raise(err: Error)

  predicate StepAgrees(st: Step, sig: Option<Signal>, after: State)
  {
    match st
    case Continue(t) => sig.None? && after == t
    case Emit(r, t) => sig == Some(Yield(r)) && after == t
    case Stop => sig == Some(StopIteration)
    case Fail(e) => sig == Some(Raise(e))
  }

  /** The decoder over one stream. */
  class Reader {
    const input: seq<Byte>
    var pos: nat
    var url: Option<string>
    var urlLatest: Option<string>
    var header: map<string, HeaderValue>
    var data: map<string, seq<Byte>>
    var phase: Phase

    function Current(): State
      reads this
    {
      State(Source(input), pos, url, urlLatest, header, data, phase)
    }

    predicate Valid()
      reads this
    {
      pos <= |input|
    }

    constructor (stream: seq<Byte>)
      ensures Valid() && Current() == Start(stream)
    {
      input := stream;
      pos := 0;
      url := None;
      urlLatest := None;
      header := map[];
      data := map[];
      phase := Header;
    }

    /** `_reset`. */
    method Reset()
      modifies this
      ensures Current() == ResetState(old(Current()))
    {
      url := urlLatest;
      header := map[];
      data := map[];
      phase := Header;
      urlLatest := None;
    }

    /** `_read_header`, without its tail call. */
    method ReadHeader(dec: seq<Byte> -> Option<string>) returns (sig: Option<Signal>)
      requires Valid() && phase == Header
      modifies this
      ensures Valid()
      ensures StepAgrees(HeaderStep(dec, old(Current())), sig, Current())
    {
      var e := LineEnd(input, pos);
      var line := input[pos..e];
      pos := e;
      if |line| == 0 {
        return Some(StopIteration);
      }
      var text := dec(line);
      if text.None? {
        return None;
      }
      var l := Strip(text.value);
      ApplyHeaderLine(l);
      sig := None;
    }

    /** The body of `_read_header` once a line is decoded and stripped. */
    method ApplyHeaderLine(l: string)
      requires Valid()
      modifies this
      ensures Valid()
      ensures Current() == HeaderLine(old(Current()), l)
    {
      if |l| <= 0 && header != map[] {
        phase := Data;
      } else if |l| > 1024 {
      } else if SimpleCheckUrl(l) {
        Reset();
        url := Some(l);
      } else {
        var d := Find(l, ':');
        if d > 0 {
          StoreHeader(Strip(l[0..d]), Strip(l[d + 1..]));
        }
      }
    }

    /** `self._header[key] = value`, the value parsed first for a series key. */
    method StoreHeader(key: string, value: string)
      modifies this
      ensures Current() == old(Current()).(header := old(header)[key := HeaderValueOf(key, value)])
    {
      if key in SERIES {
        header := header[key := Series(SplitSeries(value))];
      } else {
        header := header[key := Plain(value)];
      }
    }

    /** `_read_data`: read each declared segment in turn into a fresh dict. */
    method ReadData() returns (sig: Option<Signal>)
      requires Valid() && phase == Data
      modifies this
      ensures Valid()
      ensures StepAgrees(DataStep(old(Current())), sig, Current())
    {
      if CONTENT_TYPE !in header {
        return Some(Raise(KeyError(CONTENT_TYPE)));
      }
      if urlLatest.Some? {
        return Some(Yield(Generate(Current())));
      }
      var end := ReadDeclared(header[CONTENT_TYPE].Items());
      match end {
        case Filled(d, _) =>
          data := d;
          return Some(Yield(Generate(Current())));
        case Negative(_) =>
          return Some(Yield(Generate(Current())));
        case Exhausted =>
          return Some(StopIteration);
        case Broken(e) =>
          return Some(Raise(e));
      }
    }

    /** The loop of `_read_data` over the declared segments, reading each into a fresh dict. */
    method ReadDeclared(segs: seq<seq<string>>) returns (end: SegmentsEnd)
      requires Valid()
      modifies this`pos
      ensures Valid()
      ensures end == ReadSegments(input, old(pos), segs, map[])
      ensures end.Filled? || end.Negative? ==> pos == end.pos
    {
      var d: map<string, seq<Byte>> := map[];
      var i := 0;
      while i < |segs|
        invariant 0 <= i <= |segs| && pos <= |input|
        invariant ReadSegments(input, old(pos), segs, map[]) == ReadSegments(input, pos, segs[i..], d)
      {
        assert segs[i..][0] == segs[i] && segs[i..][1..] == segs[i + 1..];
        if |segs[i]| != 2 {
          return Broken(ValueError("unpack"));
        }
        var size := ParseInt(segs[i][1]);
        if size.Err? {
          return Broken(size.error);
        }
        if size.value < 0 {
          return Negative(pos);
        }
        var e := ReadEnd(input, pos, size.value);
        var b := input[pos..e];
        pos := e;
        if size.value > 0 && |b| == 0 {
          return Exhausted;
        }
        d := d[segs[i][0] := b];
        i := i + 1;
      }
      end := Filled(d, pos);
    }

    /** `_read()`. */
    method ReadRecord(dec: seq<Byte> -> Option<string>) returns (sig: Signal)
      requires Valid()
      modifies this
      ensures Valid()
      ensures match Next(dec, old(Current()))
        case Emitted(r, t) => sig == Yield(r) && Current() == t
        case Ended => sig == StopIteration
        case Failed(e) => sig == Raise(e)
    {
      while true
        invariant Valid()
        invariant Next(dec, Current()) == Next(dec, old(Current()))
        decreases |input| - pos
      {
        ghost var before := Current();
        var step: Option<Signal>;
        match phase {
          case Header => step := ReadHeader(dec);
          case Data => step := ReadData();
        }
        assert StepAgrees(StepOf(dec, before), step, Current());
        if step.Some? {
          return step.value;
        }
      }
    }

    /** `read`: yield each record and reset, until the stream ends or an error is raised. */
    method Read(dec: seq<Byte> -> Option<string>) returns (records: seq<OffpageRecord>, err: Option<Error>)
      requires Valid()
      modifies this
      ensures Decoded(records, err) == DecodeAll(dec, old(Current()))
    {
      records := [];
      while true
        invariant Valid()
        invariant DecodeAll(dec, old(Current())) ==
          Decoded(records + DecodeAll(dec, Current()).records, DecodeAll(dec, Current()).error)
        decreases |input| - pos, Rank(phase)
      {
        ghost var before := Current();
        var sig := ReadRecord(dec);
        match sig {
          case Yield(r) =>
            DecodeAllEmitted(dec, before, records);
            records := records + [r];
            Reset();
          case StopIteration =>
            return records, None;
          case Raise(e) =>
            return records, Some(e);
        }
      }
    }
  }
}
