/**
 * What the converter promises: which inner-header lines it keeps, what
 * each http-header line does, when a record is emitted without reading a
 * payload, the invariant of the states it reaches (which makes the legacy
 * `\r\n` shift dead code and rules out writing a None URL), and what
 * it writes for an empty buffer.
 */
module SpageToOffpageRules {
  import opened Basics
  import opened Text
  import opened Validator
  import opened SpageToOffpage

  // ---------------------------------------------------------------------
  // Inner header
  // ---------------------------------------------------------------------

  /**
   * A blank line leaves the inner header exactly when a URL is held,
   * whatever has been buffered (an `io.BytesIO` buffer is always true);
   * without one it is buffered as a lone newline.
   */
  lemma {:induction false} BlankInnerLine(t: State)
    requires t.Valid()
    ensures Truthy(t.url) ==> InnerLine(t, []) == Continue(t.(phase := HttpHeader))
    ensures !Truthy(t.url) ==> InnerLine(t, []) == Continue(t.(inner := t.inner + [10]))
  {
    if !Truthy(t.url) {
      assert Latin1([]) == "";
      assert !IsUrl([]);
    }
  }

  /** A line over 1024 bytes is skipped. */
  lemma {:induction false} LongInnerLineSkipped(t: State, l: seq<Byte>)
    requires t.Valid() && |l| > MAX_LINE
    ensures InnerLine(t, l) == Continue(t)
  {
  }

  /** A URL line starts a new record: only the URL is kept, sizes and buffers are cleared. */
  lemma {:induction false} UrlLineRestarts(t: State, l: seq<Byte>)
    requires t.Valid() && 0 < |l| <= MAX_LINE && IsUrl(l)
    ensures InnerLine(t, l).Continue?
    ensures var n := InnerLine(t, l).next;
      n.url == Some(l) && n.urlLatest.None? && n.storeSize == 0 && n.inner == [] && n.data == [] &&
      n.phase == InnerHeader && n.pos == t.pos
  {
  }

  /** A line starting with a letter other than `h` is not a URL. */
  lemma {:induction false} NotUrlByFirst(l: seq<Byte>, prefix: string)
    requires HasPrefix(l, prefix) && |prefix| > 0 && prefix[0] != 'h'
    ensures !IsUrl(l)
  {
    assert Latin1(l)[0] == prefix[0];
  }

  /** An `Original-Size:` line is dropped. */
  lemma {:induction false} OriginalSizeDropped(t: State, l: seq<Byte>)
    requires t.Valid() && |l| <= MAX_LINE && HasPrefix(l, ORIGINAL_SIZE_PREFIX)
    ensures InnerLine(t, l) == Continue(t)
  {
    NotUrlByFirst(l, ORIGINAL_SIZE_PREFIX);
  }

  /**
   * A `Store-Size: ` line is not copied: it sets the stored size to the
   * integer after the colon, or raises when that is not an integer.
   */
  lemma {:induction false} StoreSizeLine(t: State, l: seq<Byte>)
    requires t.Valid() && |l| <= MAX_LINE && HasPrefix(l, STORE_SIZE_PREFIX)
    ensures COLON in l
    ensures StoreSizeOf(l).Ok? ==> InnerLine(t, l) == Continue(t.(storeSize := StoreSizeOf(l).value))
    ensures StoreSizeOf(l).Err? ==> InnerLine(t, l) == Fail(StoreSizeOf(l).error)
  {
    NotUrlByFirst(l, STORE_SIZE_PREFIX);
    assert Latin1(l)[0] == 'S';
    assert Latin1(l)[10] == ':';
  }

  /** Any other line up to 1024 bytes is copied, stripped, with a newline; nothing else changes. */
  lemma {:induction false} OtherInnerLineCopied(t: State, l: seq<Byte>)
    requires t.Valid() && 0 < |l| <= MAX_LINE && !IsUrl(l)
    requires !HasPrefix(l, ORIGINAL_SIZE_PREFIX) && !HasPrefix(l, STORE_SIZE_PREFIX)
    ensures InnerLine(t, l) == Continue(t.(inner := t.inner + l + [10]))
  {
  }

  // ---------------------------------------------------------------------
  // The sizes the primary encoder writes
  // ---------------------------------------------------------------------

  /** The bytes of ASCII text are its code points, one per character. */
  lemma {:induction false} AsciiBytes(s: string)
    requires forall i :: 0 <= i < |s| ==> (s[i] as int) < 0x80
    ensures Latin1(Utf8Encode(s)) == s
  {
    Utf8AsciiText(s);
  }

  lemma {:induction false} DigitsAscii(s: string)
    requires AllDigits(s)
    ensures forall i :: 0 <= i < |s| ==> (s[i] as int) < 0x80
  {
    assert forall i :: 0 <= i < |s| ==> IsDigit(s[i]);
  }

  /** Bytes that are not whitespace at either end are their own strip. */
  lemma {:induction false} ByteStripOfStripped(b: seq<Byte>)
    requires |b| > 0 && !IsByteSpace(b[0]) && !IsByteSpace(b[|b| - 1])
    ensures ByteStrip(b) == b
  {
  }

  /** A leading space is stripped off. */
  lemma {:induction false} ByteStripLeadingSpace(b: seq<Byte>)
    requires |b| > 0 && !IsByteSpace(b[0]) && !IsByteSpace(b[|b| - 1])
    ensures ByteStrip([32] + b) == b
  {
    assert ([32] + b)[1..] == b;
    assert ByteTrimLeft([32] + b) == ByteTrimLeft(b);
  }

  /** The written line is the key, a colon and the spaced digits. */
  lemma {:induction false} StoreSizeBytes(digits: string)
    ensures Utf8Encode(STORE_SIZE_PREFIX + digits) ==
      Utf8Encode("Store-Size") + [COLON] + ([32] + Utf8Encode(digits))
  {
    assert STORE_SIZE_PREFIX + digits == "Store-Size" + ":" + (" " + digits);
    Utf8Append("Store-Size" + ":", " " + digits);
    Utf8Append("Store-Size", ":");
    Utf8Append(" ", digits);
    assert Utf8Encode(":") == [COLON];
    assert Utf8Encode(" ") == [32];
  }

  /** The key holds no colon. */
  lemma {:induction false} KeyNoColon()
    ensures COLON !in Utf8Encode("Store-Size")
  {
    var key := "Store-Size";
    assert forall i :: 0 <= i < |key| ==> (key[i] as int) < 0x80 && key[i] != ':';
    Utf8AsciiText(key);
    assert forall i :: 0 <= i < |key| ==> Utf8Encode(key)[i] != COLON;
  }

  /** The spaced digits hold no colon. */
  lemma {:induction false} DigitsNoColon(digits: string)
    requires AllDigits(digits)
    ensures COLON !in [32] + Utf8Encode(digits)
  {
    Utf8Ascii(digits, ':');
    assert ':' !in digits by {
      assert forall i :: 0 <= i < |digits| ==> IsDigit(digits[i]);
    }
  }

  /** The written line splits at its one colon into the key and the spaced digits. */
  lemma {:induction false} StoreSizeSplit(digits: string)
    requires AllDigits(digits)
    ensures var l := Utf8Encode(STORE_SIZE_PREFIX + digits);
      COLON in l && Split(l, COLON) == [Utf8Encode("Store-Size"), [32] + Utf8Encode(digits)]
  {
    var key := Utf8Encode("Store-Size");
    StoreSizeBytes(digits);
    KeyNoColon();
    DigitsNoColon(digits);
    SplitTwo(key, COLON, [32] + Utf8Encode(digits));
    assert (key + [COLON] + ([32] + Utf8Encode(digits)))[|key|] == COLON;
  }

  /** The spaced digits strip to the digits, which parse to their value. */
  lemma {:induction false} SpacedDigitsParse(n: nat)
    ensures ParseStripped(Latin1(ByteStrip([32] + Utf8Encode(NatToString(n))))) == Ok(n)
  {
    var digits := NatToString(n);
    var d := Utf8Encode(digits);
    DigitsAscii(digits);
    Utf8AsciiText(digits);
    assert IsDigit(digits[0]) && IsDigit(digits[|digits| - 1]);
    ByteStripLeadingSpace(d);
    AsciiBytes(digits);
    ParseNonNegative(n);
  }

  /**
   * The `Store-Size: N` line the primary encoder writes, with N the
   * decimal text of a count, gives the converter's stored size back as N.
   */
  lemma {:induction false} StoreSizeOfWritten(n: nat)
    ensures var l := Utf8Encode(STORE_SIZE_PREFIX + NatToString(n));
      COLON in l && StoreSizeOf(l) == Ok(n)
  {
    StoreSizeSplit(NatToString(n));
    SpacedDigitsParse(n);
  }

  /** So the converter takes over the size the primary encoder recorded. */
  lemma {:induction false} WrittenStoreSizeSet(t: State, n: nat)
    requires t.Valid() && |NatToString(n)| <= 1000
    ensures InnerLine(t, Utf8Encode(STORE_SIZE_PREFIX + NatToString(n))) == Continue(t.(storeSize := n))
  {
    var text := STORE_SIZE_PREFIX + NatToString(n);
    var l := Utf8Encode(text);
    DigitsAscii(NatToString(n));
    assert forall i :: 0 <= i < |text| ==> (text[i] as int) < 0x80 by {
      assert forall i :: 0 <= i < |STORE_SIZE_PREFIX| ==> (text[i] as int) < 0x80;
      assert forall i :: |STORE_SIZE_PREFIX| <= i < |text| ==> text[i] == NatToString(n)[i - |STORE_SIZE_PREFIX|];
    }
    AsciiBytes(text);
    Utf8AsciiText(text);
    assert HasPrefix(l, STORE_SIZE_PREFIX) by {
      assert Latin1(l)[..|STORE_SIZE_PREFIX|] == text[..|STORE_SIZE_PREFIX|];
    }
    StoreSizeOfWritten(n);
    StoreSizeLine(t, l);
  }

  // ---------------------------------------------------------------------
  // Http header
  // ---------------------------------------------------------------------

  /**
   * An http-header line is buffered raw, unstripped, unless it is a URL,
   * which is held as the next record's URL instead; a blank line or a URL
   * ends the http header. The URL, inner header and size are untouched.
   */
  lemma {:induction false} HttpLineEffect(t: State, line: seq<Byte>)
    requires t.phase == HttpHeader
    ensures var n := HttpLine(t, line); var nline := ByteStrip(line);
      var isUrl := |nline| > 0 && IsUrl(nline);
      n.pos == t.pos && n.url == t.url && n.inner == t.inner && n.storeSize == t.storeSize &&
      (isUrl ==> n.data == t.data && n.urlLatest == Some(nline)) &&
      (!isUrl ==> n.data == t.data + line && n.urlLatest == t.urlLatest) &&
      (n.phase == Data <==> |nline| == 0 || isUrl) &&
      (n.phase != Data ==> n.phase == t.phase)
  {
    var nline := ByteStrip(line);
    if |nline| == 0 {
      assert HttpLine(t, line) == t.(data := t.data + line, phase := Data);
    } else if IsUrl(nline) {
      assert HttpLine(t, line) == t.(urlLatest := Some(nline), phase := Data);
    } else {
      assert HttpLine(t, line) == t.(data := t.data + line);
    }
  }

  // ---------------------------------------------------------------------
  // Payload
  // ---------------------------------------------------------------------

  /** With no positive size, or a URL held, the record is emitted at once without reading. */
  lemma {:induction false} EmitsWithoutReading(z: Zlib, s: State)
    requires s.Valid() && (s.storeSize <= 0 || s.urlLatest.Some?)
    ensures DataStep(z, s) == Generated(z, s)
  {
  }

  /**
   * Otherwise the stored size in bytes is read and decompressed when zlib
   * accepts it, kept raw when it does not; an empty result ends the
   * stream, and anything else is appended to the buffered http header.
   */
  lemma {:induction false} PayloadAppended(z: Zlib, s: State)
    requires s.Valid() && s.storeSize > 0 && s.urlLatest.None? && |s.data| > 0
    ensures var e := ReadEnd(s.input(), s.pos, s.storeSize);
      var raw := s.input()[s.pos..e];
      var d := if z.decompress(raw).Some? then z.decompress(raw).value else raw;
      DataStep(z, s) == if |d| == 0 then Stop else Generated(z, s.(pos := e, data := s.data + d))
  {
  }

  /** At the end of the stream a positive size reads nothing, which zlib rejects: the stream ends. */
  lemma {:induction false} EmptyReadEnds(z: Zlib, s: State)
    requires s.Valid() && s.storeSize > 0 && s.urlLatest.None? && s.pos == |s.input()|
    requires z.decompress([]).None?
    ensures DataStep(z, s) == Stop
  {
    assert s.input()[s.pos..s.pos] == [];
  }

  // ---------------------------------------------------------------------
  // The invariant of reachable states
  // ---------------------------------------------------------------------

  /**
   * What holds of every state the converter reaches: in the inner header
   * nothing is held or buffered for the http part; past it a URL is set;
   * in the data state the http buffer holds a line or a URL is held.
   */
  predicate Inv(s: State)
  {
    s.Valid() &&
    (s.phase == InnerHeader ==> s.urlLatest.None? && s.data == []) &&
    (s.phase != InnerHeader ==> Truthy(s.url)) &&
    (s.phase == HttpHeader ==> s.urlLatest.None?) &&
    (s.phase == Data ==> |s.data| > 0 || s.urlLatest.Some?)
  }

  lemma {:induction false} StartInv(input: seq<Byte>)
    ensures Inv(Start(input))
  {
  }

  lemma {:induction false} ResetInv(s: State)
    requires s.Valid()
    ensures Inv(ResetState(s))
  {
  }

  /** A line read in the http header is never empty, so buffering it leaves the buffer non-empty. */
  lemma {:induction false} HttpStepKeepsInv(s: State)
    requires Inv(s) && s.phase == HttpHeader
    ensures HttpStep(s).Continue? ==> Inv(HttpStep(s).next)
  {
    if s.pos < |s.input()| {
      var e := LineEnd(s.input(), s.pos);
      assert |s.input()[s.pos..e]| > 0;
    }
  }

  lemma {:induction false} InnerStepKeepsInv(s: State)
    requires Inv(s) && s.phase == InnerHeader
    ensures InnerStep(s).Continue? ==> Inv(InnerStep(s).next)
  {
    if s.pos < |s.input()| {
      var e := LineEnd(s.input(), s.pos);
      InnerLineKeepsInv(s.(pos := e), ByteStrip(s.input()[s.pos..e]));
    }
  }

  /** Each branch of the inner-header step stays in the inner header or moves on with a URL set. */
  lemma {:induction false} InnerLineKeepsInv(t: State, l: seq<Byte>)
    requires Inv(t) && t.phase == InnerHeader
    ensures InnerLine(t, l).Continue? ==> Inv(InnerLine(t, l).next)
    ensures InnerLine(t, l).Fail? ==> InnerLine(t, l).err.ValueError?
  {
    if |l| <= 0 && Truthy(t.url) {
    } else if |l| > MAX_LINE {
    } else if IsUrl(l) {
      assert |Latin1(l)| > 10;
    } else if HasPrefix(l, ORIGINAL_SIZE_PREFIX) {
    } else if HasPrefix(l, STORE_SIZE_PREFIX) {
      StoreSizeLine(t, l);
      StoreSizeError(l);
    } else {
    }
  }

  /** Every step that goes on reading keeps the invariant. */
  lemma {:induction false} StepKeepsInv(z: Zlib, s: State)
    requires Inv(s)
    ensures StepOf(z, s).Continue? ==> Inv(StepOf(z, s).next)
  {
    match s.phase {
      case InnerHeader => InnerStepKeepsInv(s);
      case HttpHeader => HttpStepKeepsInv(s);
      case Data =>
    }
  }

  /**
   * The legacy shift of `_read_data` (a payload starting with `\r\n`
   * after no http header) can never run: whenever the payload is read,
   * the http buffer already holds a line.
   */
  lemma {:induction false} LegacyShiftUnreachable(s: State)
    requires Inv(s) && s.phase == Data && s.storeSize > 0 && s.urlLatest.None?
    ensures |s.data| > 0
  {
  }

  /** In a reachable data state the URL is set, so `_generate` never writes None. */
  lemma {:induction false} DataStepNeverFails(z: Zlib, s: State)
    requires Inv(s) && s.phase == Data
    ensures !DataStep(z, s).Fail?
  {
  }

  /** The only error a reachable state can raise is the ValueError of an unparsable `Store-Size`. */
  lemma {:induction false} NextErrorIsStoreSize(z: Zlib, s: State)
    requires Inv(s)
    ensures Next(z, s).Failed? ==> Next(z, s).err.ValueError?
    decreases |s.input()| - s.pos
  {
    StepKeepsInv(z, s);
    StepErrorIsStoreSize(z, s);
    if StepOf(z, s).Continue? {
      NextErrorIsStoreSize(z, StepOf(z, s).next);
    }
  }

  lemma {:induction false} StepErrorIsStoreSize(z: Zlib, s: State)
    requires Inv(s)
    ensures StepOf(z, s).Fail? ==> StepOf(z, s).err.ValueError?
  {
    match s.phase {
      case InnerHeader =>
        if s.pos < |s.input()| {
          var e := LineEnd(s.input(), s.pos);
          InnerLineKeepsInv(s.(pos := e), ByteStrip(s.input()[s.pos..e]));
        }
      case HttpHeader =>
      case Data => DataStepNeverFails(z, s);
    }
  }

  lemma {:induction false} ParseStrippedError(t: string)
    ensures ParseStripped(t).Err? ==> ParseStripped(t).error.ValueError?
  {
  }

  lemma {:induction false} StoreSizeError(l: seq<Byte>)
    requires COLON in l
    ensures StoreSizeOf(l).Err? ==> StoreSizeOf(l).error.ValueError?
  {
    CountPresent(l, COLON);
    ParseStrippedError(Latin1(ByteStrip(Split(l, COLON)[1])));
  }

  /** So a whole conversion ends either cleanly or with that ValueError. */
  lemma {:induction false} ConvertAllErrorIsStoreSize(z: Zlib, s: State)
    requires Inv(s)
    ensures ConvertAll(z, s).error.Some? ==> ConvertAll(z, s).error.value.ValueError?
    decreases |s.input()| - s.pos, Rank(s.phase)
  {
    NextErrorIsStoreSize(z, s);
    match Next(z, s) {
      case Emitted(r, t) =>
        ResetInv(t);
        ConvertAllErrorIsStoreSize(z, ResetState(t));
      case Ended =>
      case Failed(e) =>
    }
  }

  // ---------------------------------------------------------------------
  // The record written
  // ---------------------------------------------------------------------

  /**
   * An empty buffer is written uncompressed: both sizes are 0, nothing
   * is stored, and zlib is not consulted.
   */
  lemma {:induction false} EmptyBufferNotCompressed(z: Zlib, z2: Zlib, url: seq<Byte>, inner: seq<Byte>)
    ensures Output(z, url, inner, []) == Output(z2, url, inner, [])
    ensures Output(z, url, inner, []) ==
      url + [10] + inner + Utf8Encode(SizeLine(CONTENT_TYPE, 0)) + Utf8Encode(SizeLine(ORIGINAL_SIZE, 0)) + [10, 10]
  {
    assert Stored(z, []) == [] && Stored(z2, []) == [];
  }
}
