/**
 * The rules of the primary stream decoder, stated about its step
 * functions: what each kind of line does in each state, when a record is
 * emitted and with what payload, and the invariant every reachable state
 * keeps (so that every record read has a URL and a non-empty inner header).
 */
module SpageReaderRules {
  import opened Basics
  import opened Text
  import opened DefaultSchema
  import opened Validator
  import opened SpageReader

  /** The line at the cursor, as `readline` returns it. */
  function LineAt(s: State): seq<Byte>
    requires s.Valid()
  {
    s.input()[s.pos..LineEnd(s.input(), s.pos)]
  }

  // ---------------------------------------------------------------------
  // End of stream
  // ---------------------------------------------------------------------

  /** An empty `readline` in a header state ends the sequence: no partial record is emitted. */
  lemma {:induction false} EndOfStreamInHeader(dec: seq<Byte> -> Option<string>, s: State)
    requires s.Valid() && s.phase != Data && s.pos == |s.input()|
    ensures StepOf(dec, s) == Stop
    ensures Next(dec, s) == Ended
    ensures DecodeAll(dec, s) == Decoded([], None)
  {
  }

  // ---------------------------------------------------------------------
  // Inner-header state
  // ---------------------------------------------------------------------

  /** A line that does not decode is skipped in either header state. */
  lemma {:induction false} UndecodableLineSkipped(dec: seq<Byte> -> Option<string>, s: State)
    requires s.Valid() && s.phase != Data && s.pos < |s.input()|
    requires dec(LineAt(s)).None?
    ensures StepOf(dec, s) == Continue(s.(pos := LineEnd(s.input(), s.pos)))
  {
  }

  /** A stripped line longer than 1024 characters is skipped in the inner header, even a URL. */
  lemma {:induction false} LongLineSkipped(dec: seq<Byte> -> Option<string>, s: State)
    requires s.Valid() && s.phase == InnerHeader && s.pos < |s.input()|
    requires dec(LineAt(s)).Some? && |Strip(dec(LineAt(s)).value)| > 1024
    ensures StepOf(dec, s) == Continue(s.(pos := LineEnd(s.input(), s.pos)))
  {
  }

  /**
   * A URL line in the inner header drops any partly read header and
   * becomes the current URL; nothing is emitted.
   */
  lemma {:induction false} UrlLineResets(dec: seq<Byte> -> Option<string>, s: State)
    requires s.Valid() && s.phase == InnerHeader && s.pos < |s.input()|
    requires dec(LineAt(s)).Some?
    requires SimpleCheckUrl(Strip(dec(LineAt(s)).value)) && |Strip(dec(LineAt(s)).value)| <= 1024
    ensures StepOf(dec, s).Continue?
    ensures var t := StepOf(dec, s).next;
      t.pos == LineEnd(s.input(), s.pos) && t.input() == s.input() &&
      t.url == Some(Strip(dec(LineAt(s)).value)) && t.urlLatest.None? &&
      t.inner == map[] && t.http == map[] && t.data.None? && t.phase == InnerHeader
  {
  }

  /**
   * The inner header moves to the http-header state exactly on a blank
   * line read while the inner header is non-empty and a URL is set.
   */
  lemma {:induction false} ToHttpHeaderExactly(dec: seq<Byte> -> Option<string>, s: State)
    requires s.Valid() && s.phase == InnerHeader
    ensures (StepOf(dec, s).Continue? && StepOf(dec, s).next.phase == HttpHeader) <==>
      (s.pos < |s.input()| && dec(LineAt(s)).Some? && |Strip(dec(LineAt(s)).value)| == 0 &&
       s.inner != map[] && Truthy(s.url))
  {
  }

  /** Any other blank line in the inner header (a leading one, say) is skipped. */
  lemma {:induction false} OtherBlankLineSkipped(dec: seq<Byte> -> Option<string>, s: State)
    requires s.Valid() && s.phase == InnerHeader && s.pos < |s.input()|
    requires dec(LineAt(s)).Some? && |Strip(dec(LineAt(s)).value)| == 0
    requires s.inner == map[] || !Truthy(s.url)
    ensures StepOf(dec, s) == Continue(s.(pos := LineEnd(s.input(), s.pos)))
  {
    var l := Strip(dec(LineAt(s)).value);
    assert Find(l, ':') == -1;
  }

  /**
   * A non-blank line that is neither too long nor a URL is a header line:
   * it sets the key before its first colon (at index > 0) to the rest,
   * both stripped, replacing an earlier value; without such a colon it
   * changes nothing.
   */
  lemma {:induction false} InnerHeaderLineStored(dec: seq<Byte> -> Option<string>, s: State)
    requires s.Valid() && s.phase == InnerHeader && s.pos < |s.input()|
    requires dec(LineAt(s)).Some?
    requires var l := Strip(dec(LineAt(s)).value); 0 < |l| <= 1024 && !SimpleCheckUrl(l)
    ensures var l := Strip(dec(LineAt(s)).value); var t := s.(pos := LineEnd(s.input(), s.pos));
      StepOf(dec, s) == Continue(
        if Find(l, ':') > 0 then t.(inner := s.inner[HeaderPair(l).value.0 := HeaderPair(l).value.1]) else t)
  {
  }

  /** The pair split off a line: the text before the first colon and the text after it, stripped. */
  lemma {:induction false} HeaderPairSplitsAtFirstColon(line: string)
    requires HeaderPair(line).Some?
    ensures var d := Find(line, ':');
      0 < d < |line| && line[d] == ':' && ':' !in line[..d] &&
      line == line[..d] + [':'] + line[d + 1..] &&
      HeaderPair(line).value == (Strip(line[..d]), Strip(line[d + 1..]))
  {
    var d := Find(line, ':');
    FindFirst(line, ':');
    assert line == line[..d] + [':'] + line[d + 1..];
  }

  // ---------------------------------------------------------------------
  // Http-header state
  // ---------------------------------------------------------------------

  /** A blank line ends the http header and moves to the data state. */
  lemma {:induction false} HttpBlankLineToData(dec: seq<Byte> -> Option<string>, s: State)
    requires s.Valid() && s.phase == HttpHeader && s.pos < |s.input()|
    requires dec(LineAt(s)).Some? && |Strip(dec(LineAt(s)).value)| == 0
    ensures StepOf(dec, s) == Continue(s.(pos := LineEnd(s.input(), s.pos), phase := Data))
  {
  }

  /** A URL line in the http header is held for the next record and moves to the data state. */
  lemma {:induction false} HttpUrlLineHeld(dec: seq<Byte> -> Option<string>, s: State)
    requires s.Valid() && s.phase == HttpHeader && s.pos < |s.input()|
    requires dec(LineAt(s)).Some? && SimpleCheckUrl(Strip(dec(LineAt(s)).value))
    ensures StepOf(dec, s) == Continue(s.(pos := LineEnd(s.input(), s.pos),
      urlLatest := Some(Strip(dec(LineAt(s)).value)), phase := Data))
  {
  }

  /**
   * Any other line in the http header, whatever its length, sets the key
   * before its first colon (at index > 0) to the rest, both stripped,
   * replacing an earlier value; without such a colon it changes nothing.
   */
  lemma {:induction false} HttpHeaderLineStored(dec: seq<Byte> -> Option<string>, s: State)
    requires s.Valid() && s.phase == HttpHeader && s.pos < |s.input()|
    requires dec(LineAt(s)).Some?
    requires var l := Strip(dec(LineAt(s)).value); 0 < |l| && !SimpleCheckUrl(l)
    ensures var l := Strip(dec(LineAt(s)).value); var t := s.(pos := LineEnd(s.input(), s.pos));
      StepOf(dec, s) == Continue(
        if Find(l, ':') > 0 then t.(http := s.http[HeaderPair(l).value.0 := HeaderPair(l).value.1]) else t)
  {
  }

  /**
   * With a URL held, the record is emitted without reading a payload, and
   * decoding goes on from the same position with the held URL as the
   * current one and empty headers.
   */
  lemma {:induction false} HeldUrlStartsNextRecord(dec: seq<Byte> -> Option<string>, s: State)
    requires s.Valid() && s.phase == Data && s.urlLatest.Some? && StoreSize(s.inner).Ok?
    ensures DecodeAll(dec, s) == Decoded(
      [Generate(s)] + DecodeAll(dec, s.(url := s.urlLatest, urlLatest := None, inner := map[],
                                        http := map[], data := None, phase := InnerHeader)).records,
      DecodeAll(dec, s.(url := s.urlLatest, urlLatest := None, inner := map[],
                        http := map[], data := None, phase := InnerHeader)).error)
  {
    assert Next(dec, s) == Emitted(Generate(s), s);
    assert ResetState(s) == s.(url := s.urlLatest, urlLatest := None, inner := map[],
                                http := map[], data := None, phase := InnerHeader);
  }

  // ---------------------------------------------------------------------
  // Data state
  // ---------------------------------------------------------------------

  /**
   * Store-Size absent or negative: the record is emitted at once, without
   * a payload, and the cursor does not move.
   */
  lemma {:induction false} NoSizeNoPayload(s: State)
    requires Inv(s) && s.phase == Data
    requires STORE_SIZE !in s.inner || (ParseInt(s.inner[STORE_SIZE]).Ok? && ParseInt(s.inner[STORE_SIZE]).value < 0)
    ensures DataStep(s) == Emit(Generate(s), s)
    ensures DataStep(s).rec.data.None? && DataStep(s).rec.url == s.url && DataStep(s).rec.inner == s.inner
  {
  }

  /** A Store-Size that `int()` rejects raises a ValueError. */
  lemma {:induction false} BadSizeRaises(s: State)
    requires s.Valid() && s.phase == Data
    requires STORE_SIZE in s.inner && ParseInt(s.inner[STORE_SIZE]).Err?
    ensures DataStep(s).Fail? && DataStep(s).err.ValueError?
  {
  }

  /** A positive size with nothing left to read ends the sequence. */
  lemma {:induction false} EmptyReadEnds(s: State)
    requires s.Valid() && s.phase == Data && s.urlLatest.None? && s.pos == |s.input()|
    requires StoreSize(s.inner).Ok? && StoreSize(s.inner).value > 0
    ensures DataStep(s) == Stop
  {
  }

  /** Otherwise exactly Store-Size bytes (or the rest of the stream) become the payload. */
  lemma {:induction false} PayloadIsStoreSizeBytes(s: State, n: int)
    requires s.Valid() && s.phase == Data && s.urlLatest.None?
    requires StoreSize(s.inner) == Ok(n) && n >= 0 && s.pos + n <= |s.input()|
    requires s.http != map[] || n < 2 || s.input()[s.pos..s.pos + 2] != [13, 10]
    ensures DataStep(s).Emit?
    ensures DataStep(s).rec.data == Some(s.input()[s.pos..s.pos + n])
    ensures DataStep(s).next.pos == s.pos + n
  {
    if n >= 2 {
      assert s.input()[s.pos..s.pos + n][..2] == s.input()[s.pos..s.pos + 2];
    }
  }

  /**
   * A short read at the end of the stream: when fewer than Store-Size
   * bytes are left, the bytes that are there become the payload.
   */
  lemma {:induction false} ShortPayloadKept(s: State, n: int)
    requires s.Valid() && s.phase == Data && s.urlLatest.None?
    requires StoreSize(s.inner) == Ok(n) && s.pos < |s.input()| < s.pos + n
    requires s.http != map[] || |s.input()| - s.pos < 2 || s.input()[s.pos..s.pos + 2] != [13, 10]
    ensures DataStep(s).Emit?
    ensures DataStep(s).rec.data == Some(s.input()[s.pos..])
    ensures DataStep(s).next.pos == |s.input()|
  {
    assert s.input()[s.pos..ReadEnd(s.input(), s.pos, n)] == s.input()[s.pos..];
    if |s.input()| - s.pos >= 2 {
      assert s.input()[s.pos..][..2] == s.input()[s.pos..s.pos + 2];
    }
  }

  /**
   * The legacy shift: with no http header and a payload that starts with
   * CRLF, the payload window moves two bytes on.
   */
  lemma {:induction false} LegacyShift(s: State, n: int)
    requires s.Valid() && s.phase == Data && s.urlLatest.None? && s.http == map[]
    requires StoreSize(s.inner) == Ok(n) && n >= 2 && s.pos + n + 2 <= |s.input()|
    requires s.input()[s.pos..s.pos + 2] == [13, 10]
    ensures DataStep(s).Emit?
    ensures DataStep(s).rec.data == Some(s.input()[s.pos + 2..s.pos + n + 2])
    ensures DataStep(s).next.pos == s.pos + n + 2
  {
    var data := s.input()[s.pos..s.pos + n];
    assert data[..2] == s.input()[s.pos..s.pos + 2];
    assert data[2..] + s.input()[s.pos + n..s.pos + n + 2] == s.input()[s.pos + 2..s.pos + n + 2];
  }

  // ---------------------------------------------------------------------
  // The reachable-state invariant
  // ---------------------------------------------------------------------

  /**
   * What holds of every state the decoder reaches between steps: no payload
   * is pending; a URL is held only in the data state; past the inner
   * header, a URL is set and the inner header is non-empty.
   */
  predicate Inv(s: State)
  {
    s.Valid() && s.data.None? &&
    (s.phase != Data ==> s.urlLatest.None?) &&
    (s.phase != InnerHeader ==> Truthy(s.url) && s.inner != map[])
  }

  lemma {:induction false} StartInv(input: seq<Byte>)
    ensures Inv(Start(input))
  {
  }

  lemma {:induction false} InnerHeaderStepKeepsInv(dec: seq<Byte> -> Option<string>, s: State)
    requires Inv(s) && s.phase == InnerHeader
    ensures InnerHeaderStep(dec, s).Continue? ==> Inv(InnerHeaderStep(dec, s).next)
  {
    if s.pos < |s.input()| {
      var t := s.(pos := LineEnd(s.input(), s.pos));
      var text := dec(s.input()[s.pos..LineEnd(s.input(), s.pos)]);
      if text.Some? {
        assert Inv(InnerHeaderLine(t, Strip(text.value)));
      }
    }
  }

  lemma {:induction false} HttpHeaderStepKeepsInv(dec: seq<Byte> -> Option<string>, s: State)
    requires Inv(s) && s.phase == HttpHeader
    ensures HttpHeaderStep(dec, s).Continue? ==> Inv(HttpHeaderStep(dec, s).next)
  {
    if s.pos < |s.input()| {
      var t := s.(pos := LineEnd(s.input(), s.pos));
      var text := dec(s.input()[s.pos..LineEnd(s.input(), s.pos)]);
      if text.Some? {
        assert Inv(HttpHeaderLine(t, Strip(text.value)));
      }
    }
  }

  lemma {:induction false} DataStepKeepsInv(s: State)
    requires Inv(s) && s.phase == Data
    ensures DataStep(s).Emit? ==>
      Truthy(DataStep(s).rec.url) && DataStep(s).rec.inner != map[] && Inv(ResetState(DataStep(s).next))
  {
  }

  lemma {:induction false} StepKeepsInv(dec: seq<Byte> -> Option<string>, s: State)
    requires Inv(s)
    ensures StepOf(dec, s).Continue? ==> Inv(StepOf(dec, s).next)
    ensures StepOf(dec, s).Emit? ==>
      Truthy(StepOf(dec, s).rec.url) && StepOf(dec, s).rec.inner != map[] &&
      Inv(ResetState(StepOf(dec, s).next))
  {
    match s.phase {
      case InnerHeader => InnerHeaderStepKeepsInv(dec, s);
      case HttpHeader => HttpHeaderStepKeepsInv(dec, s);
      case Data => DataStepKeepsInv(s);
    }
  }

  lemma {:induction false} NextKeepsInv(dec: seq<Byte> -> Option<string>, s: State)
    requires Inv(s)
    ensures Next(dec, s).Emitted? ==>
      Truthy(Next(dec, s).rec.url) && Next(dec, s).rec.inner != map[] && Inv(ResetState(Next(dec, s).next))
    decreases |s.input()| - s.pos
  {
    StepKeepsInv(dec, s);
    if StepOf(dec, s).Continue? {
      NextKeepsInv(dec, StepOf(dec, s).next);
    }
  }

  /** Every record the decoder yields has a URL and a non-empty inner header. */
  lemma {:induction false} RecordsHaveUrlAndHeader(dec: seq<Byte> -> Option<string>, s: State)
    requires Inv(s)
    ensures forall r :: r in DecodeAll(dec, s).records ==> Truthy(r.url) && r.inner != map[]
    decreases |s.input()| - s.pos, Rank(s.phase)
  {
    NextKeepsInv(dec, s);
    if Next(dec, s).Emitted? {
      RecordsHaveUrlAndHeader(dec, ResetState(Next(dec, s).next));
    }
  }

  /** So does every record read from the start of a stream. */
  lemma {:induction false} StreamRecordsHaveUrlAndHeader(dec: seq<Byte> -> Option<string>, input: seq<Byte>)
    ensures forall r :: r in DecodeAll(dec, Start(input)).records ==> Truthy(r.url) && r.inner != map[]
  {
    StartInv(input);
    RecordsHaveUrlAndHeader(dec, Start(input));
  }
}
