/**
 * The rules of the keyed-segment decoder, stated about its step
 * functions: what each kind of header line does, when the payload state is
 * entered, how the declared segments are read, and the invariant every
 * reachable state keeps (no URL is ever held, Content-Type is a series).
 */
module OffpageReaderRules {
  import opened Basics
  import opened Text
  import opened Validator
  import opened OffpageReader

  /** The line at the cursor, as `readline` returns it. */
  function LineAt(s: State): seq<Byte>
    requires s.Valid()
  {
    s.input()[s.pos..LineEnd(s.input(), s.pos)]
  }

  // ---------------------------------------------------------------------
  // Header state
  // ---------------------------------------------------------------------

  /** An empty `readline` in the header state ends the sequence: no partial record is emitted. */
  lemma {:induction false} EndOfStreamInHeader(dec: seq<Byte> -> Option<string>, s: State)
    requires s.Valid() && s.phase == Header && s.pos == |s.input()|
    ensures StepOf(dec, s) == Stop
    ensures Next(dec, s) == Ended
    ensures DecodeAll(dec, s) == Decoded([], None)
  {
  }

  /** A line that does not decode is skipped. */
  lemma {:induction false} UndecodableLineSkipped(dec: seq<Byte> -> Option<string>, s: State)
    requires s.Valid() && s.phase == Header && s.pos < |s.input()|
    requires dec(LineAt(s)).None?
    ensures StepOf(dec, s) == Continue(s.(pos := LineEnd(s.input(), s.pos)))
  {
  }

  /** A stripped line longer than 1024 characters is skipped, even a URL. */
  lemma {:induction false} LongLineSkipped(dec: seq<Byte> -> Option<string>, s: State)
    requires s.Valid() && s.phase == Header && s.pos < |s.input()|
    requires dec(LineAt(s)).Some? && |Strip(dec(LineAt(s)).value)| > 1024
    ensures StepOf(dec, s) == Continue(s.(pos := LineEnd(s.input(), s.pos)))
  {
  }

  /** A URL line drops the header read so far and becomes the current URL; nothing is emitted. */
  lemma {:induction false} UrlLineResets(dec: seq<Byte> -> Option<string>, s: State)
    requires s.Valid() && s.phase == Header && s.pos < |s.input()|
    requires dec(LineAt(s)).Some?
    requires SimpleCheckUrl(Strip(dec(LineAt(s)).value)) && |Strip(dec(LineAt(s)).value)| <= 1024
    ensures StepOf(dec, s).Continue?
    ensures var t := StepOf(dec, s).next;
      t.pos == LineEnd(s.input(), s.pos) && t.input() == s.input() &&
      t.url == Some(Strip(dec(LineAt(s)).value)) && t.urlLatest.None? &&
      t.header == map[] && t.data == map[] && t.phase == Header
  {
  }

  /**
   * The payload state is entered exactly on a blank line read once the
   * header holds at least one entry; no URL is needed.
   */
  lemma {:induction false} ToDataExactly(dec: seq<Byte> -> Option<string>, s: State)
    requires s.Valid() && s.phase == Header
    ensures (StepOf(dec, s).Continue? && StepOf(dec, s).next.phase == Data) <==>
      (s.pos < |s.input()| && dec(LineAt(s)).Some? && |Strip(dec(LineAt(s)).value)| == 0 && s.header != map[])
  {
  }

  /** A blank line before any header entry (a leading one, say) is skipped. */
  lemma {:induction false} LeadingBlankLineSkipped(dec: seq<Byte> -> Option<string>, s: State)
    requires s.Valid() && s.phase == Header && s.pos < |s.input()| && s.header == map[]
    requires dec(LineAt(s)).Some? && |Strip(dec(LineAt(s)).value)| == 0
    ensures StepOf(dec, s) == Continue(s.(pos := LineEnd(s.input(), s.pos)))
  {
    var l := Strip(dec(LineAt(s)).value);
    assert Find(l, ':') == -1;
  }

  /**
   * A non-blank line that is neither too long nor a URL is a header line:
   * the key before its first colon (at index > 0) gets the rest, both
   * stripped, parsed into a series for Content-Type and Original-Size,
   * replacing an earlier value; without such a colon nothing changes.
   */
  lemma {:induction false} HeaderLineStored(dec: seq<Byte> -> Option<string>, s: State)
    requires s.Valid() && s.phase == Header && s.pos < |s.input()|
    requires dec(LineAt(s)).Some?
    requires var l := Strip(dec(LineAt(s)).value); 0 < |l| <= 1024 && !SimpleCheckUrl(l)
    ensures var l := Strip(dec(LineAt(s)).value); var t := s.(pos := LineEnd(s.input(), s.pos));
      StepOf(dec, s) == Continue(
        if Find(l, ':') > 0 then
          var (k, v) := HeaderPair(l).value;
          t.(header := s.header[k := if k in SERIES then Series(SplitSeries(v)) else Plain(v)])
        else t)
  {
  }

  // ---------------------------------------------------------------------
  // Data state
  // ---------------------------------------------------------------------

  /** Entering the payload state without a Content-Type header raises the lookup error. */
  lemma {:induction false} MissingContentTypeRaises(dec: seq<Byte> -> Option<string>, s: State)
    requires s.Valid() && s.phase == Data && CONTENT_TYPE !in s.header
    ensures DataStep(s) == Fail(KeyError(CONTENT_TYPE))
    ensures DecodeAll(dec, s) == Decoded([], Some(KeyError(CONTENT_TYPE)))
  {
  }

  /**
   * A negative declared size emits the record at once, without the
   * segments read before it, whose bytes stay consumed.
   */
  lemma {:induction false} NegativeSizeDiscardsSegments(s: State, p: nat)
    requires s.Valid() && s.phase == Data && s.urlLatest.None? && s.data == map[]
    requires CONTENT_TYPE in s.header
    requires ReadSegments(s.input(), s.pos, s.header[CONTENT_TYPE].Items(), map[]) == Negative(p)
    ensures DataStep(s) == Emit(OffpageRecord(s.url, s.header, map[]), s.(pos := p))
  {
  }

  /** A positive size whose read finds the stream exhausted ends the sequence. */
  lemma {:induction false} EmptyReadEnds(dec: seq<Byte> -> Option<string>, s: State)
    requires s.Valid() && s.phase == Data && s.urlLatest.None? && CONTENT_TYPE in s.header
    requires ReadSegments(s.input(), s.pos, s.header[CONTENT_TYPE].Items(), map[]) == Exhausted
    ensures DataStep(s) == Stop
    ensures DecodeAll(dec, s) == Decoded([], None)
  {
  }

  /** The segment loop stops at the first negative size, before reading it. */
  lemma {:induction false} NegativeSizeStopsLoop(input: seq<Byte>, pos: nat, name: string, n: nat, rest: seq<seq<string>>, data: map<string, seq<Byte>>)
    requires pos <= |input| && n > 0
    ensures ReadSegments(input, pos, [[name, IntToString(-(n as int))]] + rest, data) == Negative(pos)
  {
    ParseIntToString(-(n as int));
    assert ([[name, IntToString(-(n as int))]] + rest)[0] == [name, IntToString(-(n as int))];
  }

  /** The bytes of the segments, one after the other. */
  function Concat(payloads: seq<seq<Byte>>): (r: seq<Byte>)
  {
    if |payloads| == 0 then [] else payloads[0] + Concat(payloads[1..])
  }

  /** The series declaring each named payload with its length. */
  function Declare(names: seq<string>, payloads: seq<seq<Byte>>): (r: seq<(string, string)>)
    requires |names| == |payloads|
    ensures |r| == |names|
  {
    if |names| == 0 then []
    else [(names[0], NatToString(|payloads[0]|))] + Declare(names[1..], payloads[1..])
  }

  /** The dict the loop fills: each name set to its payload in turn, so a later duplicate wins. */
  function Stored(data: map<string, seq<Byte>>, names: seq<string>, payloads: seq<seq<Byte>>): map<string, seq<Byte>>
    requires |names| == |payloads|
    decreases |names|
  {
    if |names| == 0 then data else Stored(data[names[0] := payloads[0]], names[1..], payloads[1..])
  }

  /** The stored dict has exactly the declared names, each with its last payload. */
  lemma {:induction false} StoredLookup(data: map<string, seq<Byte>>, names: seq<string>, payloads: seq<seq<Byte>>)
    requires |names| == |payloads|
    ensures forall k :: k in Stored(data, names, payloads) <==> k in data || k in names
    ensures forall i :: 0 <= i < |names| && names[i] !in names[i + 1..] ==> Stored(data, names, payloads)[names[i]] == payloads[i]
    ensures forall k :: k in data && k !in names ==> Stored(data, names, payloads)[k] == data[k]
    decreases |names|
  {
    if |names| > 0 {
      var d1 := data[names[0] := payloads[0]];
      StoredLookup(d1, names[1..], payloads[1..]);
      var r := Stored(data, names, payloads);
      forall k ensures k in names <==> k == names[0] || k in names[1..] {
        if k in names && k != names[0] {
          var i :| 0 <= i < |names| && names[i] == k;
          assert names[1..][i - 1] == k;
        }
      }
      forall i | 0 <= i < |names| && names[i] !in names[i + 1..]
        ensures r[names[i]] == payloads[i]
      {
        if i == 0 {
          assert names[0] !in names[1..];
        } else {
          assert names[1..][i - 1] == names[i] && names[1..][i - 1 + 1..] == names[i + 1..];
        }
      }
    }
  }

  /** Digits hold neither series separator. */
  lemma {:induction false} DigitsAreAtom(t: string)
    requires AllDigits(t)
    ensures Atom(t)
  {
    assert forall c :: c in t ==> IsDigit(c);
  }

  /** `seg` is the pair `name, n`, its size parsing back to `n`. */
  predicate Sized(seg: seq<string>, name: string, n: nat)
  {
    |seg| == 2 && seg[0] == name && ParseInt(seg[1]) == Ok(n)
  }

  /** Each segment pairs the name at its place with the length of the payload there. */
  predicate Declares(segs: seq<seq<string>>, names: seq<string>, payloads: seq<seq<Byte>>)
    decreases |segs|
  {
    |segs| == |names| == |payloads| &&
    (|segs| == 0 || (Sized(segs[0], names[0], |payloads[0]|) && Declares(segs[1..], names[1..], payloads[1..])))
  }

  /**
   * Segments declared with their lengths and stored one after the other
   * at the cursor are read in order, each exactly its declared length,
   * into the dict.
   */
  lemma {:induction false} SegmentsRead(input: seq<Byte>, pos: nat, segs: seq<seq<string>>, names: seq<string>, payloads: seq<seq<Byte>>, data: map<string, seq<Byte>>)
    requires Declares(segs, names, payloads) && At(input, pos, Concat(payloads))
    ensures ReadSegments(input, pos, segs, data) == Filled(Stored(data, names, payloads), pos + |Concat(payloads)|)
    decreases |names|
  {
    if |names| > 0 {
      var n := |payloads[0]|;
      var d1 := data[names[0] := payloads[0]];
      assert Concat(payloads) == payloads[0] + Concat(payloads[1..]);
      AtSplit(input, pos, payloads[0], Concat(payloads[1..]));
      ReadPairStep(input, pos, segs, names[0], payloads[0], data);
      SegmentsRead(input, pos + n, segs[1..], names[1..], payloads[1..], d1);
      StoredCons(data, names, payloads);
    }
  }

  /** The first payload is stored before the rest. */
  lemma {:induction false} StoredCons(data: map<string, seq<Byte>>, names: seq<string>, payloads: seq<seq<Byte>>)
    requires |names| == |payloads| > 0
    ensures Stored(data, names, payloads) == Stored(data[names[0] := payloads[0]], names[1..], payloads[1..])
  {
  }

  /** One pair `name, n` with a non-negative size reads the next `n` bytes into the dict. */
  lemma {:induction false} ReadPairStep(input: seq<Byte>, pos: nat, segs: seq<seq<string>>, name: string, b: seq<Byte>, data: map<string, seq<Byte>>)
    requires At(input, pos, b)
    requires |segs| > 0 && Sized(segs[0], name, |b|)
    ensures ReadSegments(input, pos, segs, data) == ReadSegments(input, pos + |b|, segs[1..], data[name := b])
  {
  }

  /** A written series declares each name with its payload's length. */
  lemma {:induction false} DeclaredSegment(names: seq<string>, payloads: seq<seq<Byte>>)
    requires |names| == |payloads|
    ensures Declares(Tuples(Declare(names, payloads)), names, payloads)
    decreases |names|
  {
    if |names| > 0 {
      DeclaredSegment(names[1..], payloads[1..]);
      var size := NatToString(|payloads[0]|);
      assert Tuples(Declare(names, payloads)) == [[names[0], size]] + Tuples(Declare(names[1..], payloads[1..]));
      ParseIntToString(|payloads[0]|);
      assert IntToString(|payloads[0]|) == size;
    }
  }

  /**
   * A payload laid out as its Content-Type series declares is emitted as
   * the dict from each segment name to its bytes.
   */
  lemma {:induction false} DeclaredSegmentsRead(s: State, names: seq<string>, payloads: seq<seq<Byte>>)
    requires |names| == |payloads| && forall i :: 0 <= i < |names| ==> Atom(names[i])
    requires s.Valid() && s.phase == Data && s.urlLatest.None?
    requires CONTENT_TYPE in s.header && s.header[CONTENT_TYPE] == HeaderValueOf(CONTENT_TYPE, SeriesText(Declare(names, payloads)))
    requires At(s.input(), s.pos, Concat(payloads))
    ensures var d := Stored(map[], names, payloads);
      DataStep(s) == Emit(OffpageRecord(s.url, s.header, d), s.(pos := s.pos + |Concat(payloads)|, data := d))
  {
    DeclaredRead(s.input(), s.pos, names, payloads);
    DataStepFilled(s, Stored(map[], names, payloads), s.pos + |Concat(payloads)|);
  }

  /** The segments a written series declares read the payloads laid out after it. */
  lemma {:induction false} DeclaredRead(input: seq<Byte>, pos: nat, names: seq<string>, payloads: seq<seq<Byte>>)
    requires |names| == |payloads| && forall i :: 0 <= i < |names| ==> Atom(names[i])
    requires At(input, pos, Concat(payloads))
    ensures ReadSegments(input, pos, HeaderValueOf(CONTENT_TYPE, SeriesText(Declare(names, payloads))).Items(), map[]) ==
      Filled(Stored(map[], names, payloads), pos + |Concat(payloads)|)
  {
    DeclaredItems(names, payloads);
    DeclaredSegment(names, payloads);
    SegmentsRead(input, pos, Tuples(Declare(names, payloads)), names, payloads, map[]);
  }

  /** Segments read to the end emit the record with the filled dict. */
  lemma {:induction false} DataStepFilled(s: State, d: map<string, seq<Byte>>, p: nat)
    requires s.Valid() && s.urlLatest.None? && CONTENT_TYPE in s.header
    requires ReadSegments(s.input(), s.pos, s.header[CONTENT_TYPE].Items(), map[]) == Filled(d, p)
    ensures DataStep(s) == Emit(OffpageRecord(s.url, s.header, d), s.(pos := p, data := d))
  {
  }

  /** The Content-Type value written for the series splits back into its segments. */
  lemma {:induction false} DeclaredItems(names: seq<string>, payloads: seq<seq<Byte>>)
    requires |names| == |payloads| && forall i :: 0 <= i < |names| ==> Atom(names[i])
    ensures HeaderValueOf(CONTENT_TYPE, SeriesText(Declare(names, payloads))).Items() == Tuples(Declare(names, payloads))
  {
    var text := SeriesText(Declare(names, payloads));
    assert CONTENT_TYPE in SERIES;
    assert HeaderValueOf(CONTENT_TYPE, text) == Series(SplitSeries(text));
    DeclaredAtoms(names, payloads);
    SeriesRoundTrip(Declare(names, payloads));
  }

  lemma {:induction false} DeclaredAtoms(names: seq<string>, payloads: seq<seq<Byte>>)
    requires |names| == |payloads| && forall i :: 0 <= i < |names| ==> Atom(names[i])
    ensures Atoms(Declare(names, payloads))
    decreases |names|
  {
    if |names| > 0 {
      DigitsAreAtom(NatToString(|payloads[0]|));
      DeclaredAtoms(names[1..], payloads[1..]);
      assert Declare(names, payloads)[1..] == Declare(names[1..], payloads[1..]);
    }
  }

  // ---------------------------------------------------------------------
  // The invariant of reachable states
  // ---------------------------------------------------------------------

  /**
   * What holds of every state the decoder reaches before emitting: no
   * URL is ever held, the payload dict is still empty, and Content-Type
   * holds a series.
   */
  predicate Inv(s: State)
  {
    s.Valid() && s.urlLatest.None? && s.data == map[] &&
    (CONTENT_TYPE in s.header ==> s.header[CONTENT_TYPE].Series?)
  }

  lemma {:induction false} StartInv(input: seq<Byte>)
    ensures Inv(Start(input))
  {
  }

  lemma {:induction false} HeaderStepKeepsInv(dec: seq<Byte> -> Option<string>, s: State)
    requires Inv(s) && s.phase == Header
    ensures HeaderStep(dec, s).Continue? ==> Inv(HeaderStep(dec, s).next)
  {
    if s.pos < |s.input()| && dec(LineAt(s)).Some? {
      var l := Strip(dec(LineAt(s)).value);
      var t := s.(pos := LineEnd(s.input(), s.pos));
      assert HeaderStep(dec, s) == Continue(HeaderLine(t, l));
    }
  }

  /**
   * The held-URL test of `_read_data` never fires: in a reachable state
   * every emission comes from the segment loop, which read every segment
   * or met a negative size.
   */
  lemma {:induction false} LookaheadNeverFires(s: State)
    requires Inv(s) && s.phase == Data
    ensures DataStep(s).Emit? ==> (CONTENT_TYPE in s.header &&
      var seg := ReadSegments(s.input(), s.pos, s.header[CONTENT_TYPE].tuples, map[]);
      (seg.Filled? && DataStep(s).rec == OffpageRecord(s.url, s.header, seg.data)) ||
      (seg.Negative? && DataStep(s).rec == OffpageRecord(s.url, s.header, map[])))
  {
  }

  /** Every `_read()` from a reachable state leaves, once reset, a reachable state. */
  lemma {:induction false} NextKeepsInv(dec: seq<Byte> -> Option<string>, s: State)
    requires Inv(s)
    ensures Next(dec, s).Emitted? ==> (Inv(ResetState(Next(dec, s).next)) &&
      CONTENT_TYPE in Next(dec, s).rec.header && Next(dec, s).rec.header[CONTENT_TYPE].Series?)
    decreases |s.input()| - s.pos
  {
    match StepOf(dec, s)
    case Continue(t) =>
      HeaderStepKeepsInv(dec, s);
      NextKeepsInv(dec, t);
    case Emit(r, t) =>
    case Stop =>
    case Fail(e) =>
  }

  /** Every record read from a reachable state declares its segments in a Content-Type series. */
  lemma {:induction false} RecordsHaveContentType(dec: seq<Byte> -> Option<string>, s: State)
    requires Inv(s)
    ensures forall r :: r in DecodeAll(dec, s).records ==> CONTENT_TYPE in r.header && r.header[CONTENT_TYPE].Series?
    decreases |s.input()| - s.pos, Rank(s.phase)
  {
    match Next(dec, s)
    case Emitted(r, t) =>
      NextKeepsInv(dec, s);
      RecordsHaveContentType(dec, ResetState(t));
    case Ended =>
    case Failed(e) =>
  }

  /** So does every record of a whole stream. */
  lemma {:induction false} StreamRecordsHaveContentType(dec: seq<Byte> -> Option<string>, input: seq<Byte>)
    ensures forall r :: r in DecodeAll(dec, Start(input)).records ==> CONTENT_TYPE in r.header && r.header[CONTENT_TYPE].Series?
  {
    RecordsHaveContentType(dec, Start(input));
  }
}
