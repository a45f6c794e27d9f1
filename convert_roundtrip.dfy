/**
 * Reading back what the converter writes: the keyed-segment decoder,
 * started before the bytes `_generate` produces, yields one record with
 * the URL, every buffered header line, the two size lines parsed as
 * series, and the stored bytes under the one segment name `snapshot`;
 * the trailing newline then ends the stream without an error.
 */
module ConvertRoundTrip {
  import opened Basics
  import opened Text
  import opened Validator
  import opened OffpageReader
  import R = OffpageReaderRules
  import C = SpageToOffpage
  import RT = RoundTrip

  /** The header dict after storing the entries one after the other, a later key replacing an earlier one. */
  function HeaderOf(h: map<string, HeaderValue>, es: RT.Entries): map<string, HeaderValue>
    decreases |es|
  {
    if |es| == 0 then h else HeaderOf(h[es[0].0 := HeaderValueOf(es[0].0, es[0].1)], es[1..])
  }

  /** The value of a size line: `snapshot, N;` as a series of one tuple, its size keeping the leading space. */
  function SizeValue(n: nat): HeaderValue
  {
    Series([["snapshot", " " + NatToString(n)]])
  }

  /** A size whose line stays within the decoder's 1024-character line limit. */
  predicate SizeFits(n: nat)
  {
    |NatToString(n)| <= 990
  }

  /** The record the decoder yields for a converted record. */
  function ConvertedRecord(z: C.Zlib, url: string, es: RT.Entries, data: seq<Byte>): OffpageRecord
  {
    var stored := C.Stored(z, data);
    OffpageRecord(Some(url),
      HeaderOf(map[], es)[CONTENT_TYPE := SizeValue(|stored|)][ORIGINAL_SIZE := SizeValue(|data|)],
      map["snapshot" := stored])
  }

  /** A URL line the reader takes for a URL: stripped, one line, within the line limit. */
  predicate UrlOk(url: string)
  {
    SimpleCheckUrl(url) && IsStripped(url) && '\n' !in url && |url| <= 1024
  }

  /** Header lines the reader reads back one by one. */
  predicate AllShort(es: RT.Entries)
  {
    forall j :: 0 <= j < |es| ==> RT.ShortEntry(es[j])
  }

  /** The text after the key of a size line. */
  function SizeText(n: nat): string
  {
    "snapshot, " + NatToString(n) + ";"
  }

  /** A header step that goes on reading leaves `_read()` with the same outcome. */
  lemma {:induction false} NextContinue(dec: seq<Byte> -> Option<string>, s: State, t: State)
    requires s.Valid() && StepOf(dec, s) == Continue(t)
    ensures Next(dec, s) == Next(dec, t)
  {
  }

  /** One step of `_read()` in the header state that goes on reading, as a partial map on states. */
  function HeaderContinues(dec: seq<Byte> -> Option<string>): State -> Option<State>
  {
    (x: State) =>
      if x.Valid() && x.phase == Header && HeaderStep(dec, x).Continue? then Some(HeaderStep(dec, x).next) else None
  }

  /** What `_read()` returns from a state, when the state is one it accepts. */
  ghost function NextOf(dec: seq<Byte> -> Option<string>): State -> Option<Outcome>
  {
    (x: State) => if x.Valid() then Some(Next(dec, x)) else None
  }

  /** A header step that goes on reading does not change what `_read()` returns. */
  lemma {:induction false} HeaderKeepsNext(dec: seq<Byte> -> Option<string>, x: State)
    requires HeaderContinues(dec)(x).Some?
    ensures NextOf(dec)(HeaderContinues(dec)(x).value) == NextOf(dec)(x)
  {
    var y := HeaderContinues(dec)(x).value;
    assert x.Valid() && StepOf(dec, x) == Continue(y);
    NextContinue(dec, x, y);
  }

  /** Header steps that go on reading do not change what `_read()` returns. */
  lemma {:induction false} LeadsNext(dec: seq<Byte> -> Option<string>, s: State, t: State)
    requires s.Valid() && RT.Leads(HeaderContinues(dec), s, t)
    ensures t.Valid() && Next(dec, s) == Next(dec, t)
  {
    var n: nat :| RT.Chain(HeaderContinues(dec), s, t, n);
    forall x | HeaderContinues(dec)(x).Some?
      ensures NextOf(dec)(HeaderContinues(dec)(x).value) == NextOf(dec)(x)
    {
      HeaderKeepsNext(dec, x);
    }
    RT.ChainKeeps(HeaderContinues(dec), NextOf(dec), s, t, n);
  }

  /** The line `K: V` read in the header state stores `V`, parsed for a series key, under `K`. */
  lemma {:induction false} ReadEntryLine(dec: seq<Byte> -> Option<string>, s: State, e: (string, string))
    requires DecodesUtf8(dec) && s.Valid() && s.phase == Header && RT.ShortEntry(e)
    requires At(s.input(), s.pos, Utf8Encode(e.0 + ": " + e.1 + "\n"))
    ensures StepOf(dec, s) ==
      Continue(s.(pos := s.pos + |Utf8Encode(e.0 + ": " + e.1 + "\n")|, header := s.header[e.0 := HeaderValueOf(e.0, e.1)]))
  {
    var (k, v) := e;
    RT.ReadTextLine(dec, s.input(), s.pos, k + ": " + v);
    RT.DecodeHeaderLine(k, v, "\n");
  }

  /** A header step that goes on reading extends a run of such steps backwards. */
  lemma {:induction false} StepLeads(dec: seq<Byte> -> Option<string>, s: State, s1: State, t: State)
    requires s.Valid() && s.phase == Header && HeaderStep(dec, s) == Continue(s1)
    requires RT.Leads(HeaderContinues(dec), s1, t)
    ensures RT.Leads(HeaderContinues(dec), s, t)
  {
    assert HeaderContinues(dec)(s) == Some(s1);
    RT.LeadsStep(HeaderContinues(dec), s, s1, t);
  }

  /** Written header lines are read one by one into the header dict. */
  lemma {:induction false} ReadHeaderEntries(dec: seq<Byte> -> Option<string>, s: State, es: RT.Entries, t: State)
    requires DecodesUtf8(dec) && s.Valid() && s.phase == Header
    requires AllShort(es)
    requires At(s.input(), s.pos, Utf8Encode(RT.Lines(es, "\n")))
    requires t == s.(pos := s.pos + |Utf8Encode(RT.Lines(es, "\n"))|, header := HeaderOf(s.header, es))
    ensures t.Valid() && RT.Leads(HeaderContinues(dec), s, t)
    decreases |es|
  {
    if |es| == 0 {
      assert Utf8Encode(RT.Lines(es, "\n")) == [];
      assert t == s;
      RT.LeadsRefl(HeaderContinues(dec), s);
    } else {
      RT.SplitLines(s.input(), s.pos, es, "\n");
      var line := Utf8Encode(es[0].0 + ": " + es[0].1 + "\n");
      var s1 := s.(pos := s.pos + |line|, header := s.header[es[0].0 := HeaderValueOf(es[0].0, es[0].1)]);
      ReadEntryLine(dec, s, es[0]);
      assert t == s1.(pos := s1.pos + |Utf8Encode(RT.Lines(es[1..], "\n"))|, header := HeaderOf(s1.header, es[1..]));
      ReadHeaderEntries(dec, s1, es[1..], t);
      StepLeads(dec, s, s1, t);
    }
  }

  /** The two size lines `_generate` writes are the lines of two header entries. */
  lemma {:induction false} SizeLinesAreEntries(a: nat, b: nat)
    ensures C.SizeLine(C.CONTENT_TYPE, a) + C.SizeLine(C.ORIGINAL_SIZE, b) ==
      RT.Lines([(CONTENT_TYPE, SizeText(a)), (ORIGINAL_SIZE, SizeText(b))], "\n")
  {
    var es := [(CONTENT_TYPE, SizeText(a)), (ORIGINAL_SIZE, SizeText(b))];
    assert es[1..] == [(ORIGINAL_SIZE, SizeText(b))] && es[1..][1..] == [];
    assert RT.Lines(es[1..], "\n") == ORIGINAL_SIZE + ": " + SizeText(b) + "\n" + "";
    assert ": snapshot, " == ": " + "snapshot, " && ";\n" == ";" + "\n";
    assert C.SizeLine(C.CONTENT_TYPE, a) == CONTENT_TYPE + ": " + SizeText(a) + "\n";
    assert C.SizeLine(C.ORIGINAL_SIZE, b) == ORIGINAL_SIZE + ": " + SizeText(b) + "\n";
  }

  /** A size line fits on one line of the decoder, and its value is already stripped. */
  lemma {:induction false} SizeEntryOk(k: string, n: nat)
    requires k == CONTENT_TYPE || k == ORIGINAL_SIZE
    requires SizeFits(n)
    ensures RT.ShortEntry((k, SizeText(n)))
  {
    var t := SizeText(n);
    var digits := NatToString(n);
    assert t[0] == 's' && t[|t| - 1] == ';';
    assert '\n' !in t by {
      forall i | 0 <= i < |t| ensures t[i] != '\n' {
        if 10 <= i < 10 + |digits| {
          assert t[i] == digits[i - 10];
          assert IsDigit(digits[i - 10]);
        }
      }
    }
  }

  /** `snapshot, N;` splits into the one tuple `snapshot` and ` N`. */
  lemma {:induction false} SizeSeries(k: string, n: nat)
    requires k == CONTENT_TYPE || k == ORIGINAL_SIZE
    ensures HeaderValueOf(k, SizeText(n)) == SizeValue(n)
  {
    var digits := NatToString(n);
    var size := " " + digits;
    R.DigitsAreAtom(digits);
    assert Atom(size) by {
      assert forall c :: c in size ==> c == ' ' || c in digits;
    }
    NamedSize("snapshot", size);
    var piece := "snapshot" + "," + size;
    assert SizeText(n) == piece + ";" + "";
    SplitCons(piece, "");
    assert Split("", ';') == [[]];
    KeepPairsCons(piece, [[]]);
    assert ',' !in [[]][0];
    assert KeepPairs([[]]) == [];
  }

  /** The size ` N` of a size line parses back to `N`: `int` strips the space. */
  lemma {:induction false} SizeParses(n: nat)
    ensures ParseInt(" " + NatToString(n)) == Ok(n)
  {
    var digits := NatToString(n);
    IntToStringIsStripped(n);
    assert " " + digits + "" == " " + digits;
    StripSurrounded(" ", digits, "");
    StripOfStripped(digits);
    ParseIntToString(n);
  }

  /** Storing at least one entry leaves the header dict non-empty. */
  lemma {:induction false} HeaderOfNonEmpty(h: map<string, HeaderValue>, es: RT.Entries)
    requires |es| > 0
    ensures HeaderOf(h, es) != map[]
    decreases |es|
  {
    var h1 := h[es[0].0 := HeaderValueOf(es[0].0, es[0].1)];
    assert es[0].0 in h1;
    if |es| > 1 {
      HeaderOfNonEmpty(h1, es[1..]);
    }
  }

  /** A whole stripped line in the header state is decoded, stripped and handed to the line rules. */
  lemma {:induction false} HeaderStepLine(dec: seq<Byte> -> Option<string>, s: State, text: string)
    requires DecodesUtf8(dec) && s.Valid() && '\n' !in text && IsStripped(text)
    requires At(s.input(), s.pos, Utf8Encode(text + "\n"))
    ensures s.pos + |Utf8Encode(text + "\n")| <= |s.input()|
    ensures HeaderStep(dec, s) == Continue(HeaderLine(s.(pos := s.pos + |Utf8Encode(text + "\n")|), text))
  {
    RT.ReadTextLine(dec, s.input(), s.pos, text);
    RT.StripNewline(text);
  }

  /** The URL line starts a record holding that URL and nothing else. */
  lemma {:induction false} ReadUrl(dec: seq<Byte> -> Option<string>, out: seq<Byte>, url: string, t: State)
    requires DecodesUtf8(dec)
    requires UrlOk(url)
    requires At(out, 0, Utf8Encode(url) + [10])
    requires RT.Leads(HeaderContinues(dec), State(Source(out), |Utf8Encode(url)| + 1, Some(url), None, map[], map[], Header), t)
    ensures RT.Leads(HeaderContinues(dec), Start(out), t)
  {
    var s0 := Start(out);
    var s1 := State(Source(out), |Utf8Encode(url)| + 1, Some(url), None, map[], map[], Header);
    var t0 := s0.(pos := |Utf8Encode(url)| + 1);
    assert HeaderStep(dec, s0) == Continue(HeaderLine(t0, url)) by {
      RT.LineBytes(url);
      HeaderStepLine(dec, s0, url);
    }
    assert HeaderLine(t0, url) == s1;
    StepLeads(dec, s0, s1, t);
  }

  /** A blank line once the header holds an entry enters the payload state. */
  lemma {:induction false} ReadBlank(dec: seq<Byte> -> Option<string>, s: State)
    requires DecodesUtf8(dec) && s.Valid() && s.phase == Header && s.header != map[]
    requires At(s.input(), s.pos, [10])
    ensures s.pos + 1 <= |s.input()|
    ensures HeaderStep(dec, s) == Continue(s.(pos := s.pos + 1, phase := Data))
  {
    assert Utf8Encode("" + "\n") == [10];
    RT.ReadTextLine(dec, s.input(), s.pos, "");
    RT.StripNewline("");
  }

  /** Two runs of header lines, read one after the other, fill the header dict in order. */
  lemma {:induction false} ReadTwoRuns(dec: seq<Byte> -> Option<string>, s: State, es: RT.Entries, sizes: RT.Entries,
                                       inner: seq<Byte>, sz: seq<Byte>, t: State)
    requires DecodesUtf8(dec) && s.Valid() && s.phase == Header
    requires AllShort(es)
    requires AllShort(sizes)
    requires inner == Utf8Encode(RT.Lines(es, "\n")) && sz == Utf8Encode(RT.Lines(sizes, "\n"))
    requires At(s.input(), s.pos, inner + sz)
    requires t == s.(pos := s.pos + |inner| + |sz|, header := HeaderOf(HeaderOf(s.header, es), sizes))
    ensures t.Valid() && RT.Leads(HeaderContinues(dec), s, t)
  {
    var f := HeaderContinues(dec);
    var s2 := s.(pos := s.pos + |inner|, header := HeaderOf(s.header, es));
    assert t == s2.(pos := s2.pos + |sz|, header := HeaderOf(s2.header, sizes));
    assert At(s.input(), s.pos, inner) && At(s2.input(), s2.pos, sz) by {
      AtSplit(s.input(), s.pos, inner, sz);
    }
    assert s2.Valid() && RT.Leads(f, s, s2) by {
      ReadHeaderEntries(dec, s, es, s2);
    }
    assert t.Valid() && RT.Leads(f, s2, t) by {
      ReadHeaderEntries(dec, s2, sizes, t);
    }
    RT.LeadsTrans(f, s, s2, t);
  }

  /** After the URL line: two runs of header lines and the blank line lead to the payload state. */
  lemma {:induction false} ReadHeadRest(dec: seq<Byte> -> Option<string>, s: State, es: RT.Entries, sizes: RT.Entries,
                                        inner: seq<Byte>, sz: seq<Byte>, t: State)
    requires DecodesUtf8(dec) && s.Valid() && s.phase == Header
    requires AllShort(es)
    requires AllShort(sizes)
    requires |sizes| > 0
    requires inner == Utf8Encode(RT.Lines(es, "\n")) && sz == Utf8Encode(RT.Lines(sizes, "\n"))
    requires At(s.input(), s.pos, inner + sz + [10])
    requires t == s.(pos := s.pos + |inner| + |sz| + 1, header := HeaderOf(HeaderOf(s.header, es), sizes), phase := Data)
    ensures RT.Leads(HeaderContinues(dec), s, t)
  {
    var f := HeaderContinues(dec);
    var s3 := s.(pos := s.pos + |inner| + |sz|, header := HeaderOf(HeaderOf(s.header, es), sizes));
    assert s3.(pos := s3.pos + 1, phase := Data) == t;
    assert At(s.input(), s.pos, inner + sz) && At(s3.input(), s3.pos, [10]) by {
      AtSplit(s.input(), s.pos, inner + sz, [10]);
    }
    assert s3.Valid() && RT.Leads(f, s, s3) by {
      ReadTwoRuns(dec, s, es, sizes, inner, sz, s3);
    }
    assert RT.Leads(f, s3, t) by {
      HeaderOfNonEmpty(HeaderOf(s.header, es), sizes);
      ReadBlank(dec, s3);
      RT.LeadsRefl(f, t);
      StepLeads(dec, s3, t, t);
    }
    RT.LeadsTrans(f, s, s3, t);
  }

  /** The header bytes split after the URL line. */
  lemma {:induction false} HeadSplit(out: seq<Byte>, u: seq<Byte>, inner: seq<Byte>, sz: seq<Byte>)
    requires At(out, 0, u + [10] + inner + sz + [10])
    ensures At(out, 0, u + [10]) && At(out, |u| + 1, inner + sz + [10])
  {
    assert u + [10] + inner + sz + [10] == (u + [10]) + (inner + sz + [10]);
    AtSplit(out, 0, u + [10], inner + sz + [10]);
  }

  /** The header of a record: the URL line, two runs of header lines and the blank line lead to the payload state. */
  lemma {:induction false} ReadHead(dec: seq<Byte> -> Option<string>, out: seq<Byte>, url: string, es: RT.Entries, sizes: RT.Entries, p: nat)
    requires DecodesUtf8(dec)
    requires UrlOk(url)
    requires AllShort(es)
    requires AllShort(sizes)
    requires |sizes| > 0
    requires At(out, 0, Utf8Encode(url) + [10])
    requires At(out, |Utf8Encode(url)| + 1, Utf8Encode(RT.Lines(es, "\n")) + Utf8Encode(RT.Lines(sizes, "\n")) + [10])
    requires p == |Utf8Encode(url)| + 1 + |Utf8Encode(RT.Lines(es, "\n"))| + |Utf8Encode(RT.Lines(sizes, "\n"))| + 1
    ensures RT.Leads(HeaderContinues(dec), Start(out), State(Source(out), p, Some(url), None, HeaderOf(HeaderOf(map[], es), sizes), map[], Data))
  {
    var u, inner, sz := Utf8Encode(url), Utf8Encode(RT.Lines(es, "\n")), Utf8Encode(RT.Lines(sizes, "\n"));
    var s1 := State(Source(out), |u| + 1, Some(url), None, map[], map[], Header);
    var s4 := State(Source(out), p, Some(url), None, HeaderOf(HeaderOf(map[], es), sizes), map[], Data);
    assert s4 == s1.(pos := s1.pos + |inner| + |sz| + 1, header := HeaderOf(HeaderOf(s1.header, es), sizes), phase := Data);
    assert RT.Leads(HeaderContinues(dec), s1, s4) by {
      ReadHeadRest(dec, s1, es, sizes, inner, sz, s4);
    }
    ReadUrl(dec, out, url, s4);
  }

  /** The one declared segment is read whole and the record is emitted. */
  lemma {:induction false} ReadSnapshot(s: State, stored: seq<Byte>)
    requires s.Valid() && s.phase == Data && s.urlLatest.None? && s.data == map[]
    requires CONTENT_TYPE in s.header && s.header[CONTENT_TYPE] == SizeValue(|stored|)
    requires At(s.input(), s.pos, stored)
    ensures DataStep(s) == Emit(OffpageRecord(s.url, s.header, map["snapshot" := stored]),
                                s.(pos := s.pos + |stored|, data := map["snapshot" := stored]))
  {
    var seg := ["snapshot", " " + NatToString(|stored|)];
    SizeParses(|stored|);
    assert R.Sized(seg, "snapshot", |stored|);
    assert R.Declares([seg], ["snapshot"], [stored]);
    assert R.Concat([stored]) == stored + R.Concat([]);
    R.SegmentsRead(s.input(), s.pos, [seg], ["snapshot"], [stored], map[]);
    assert R.Stored(map[], ["snapshot"], [stored]) == map["snapshot" := stored];
    R.DataStepFilled(s, map["snapshot" := stored], s.pos + |stored|);
  }

  /** A lone newline left at the end of the stream is skipped, and the stream ends. */
  lemma {:induction false} ReadTrailer(dec: seq<Byte> -> Option<string>, s: State)
    requires DecodesUtf8(dec) && s.Valid() && s.phase == Header && s.header == map[]
    requires At(s.input(), s.pos, [10]) && s.pos + 1 == |s.input()|
    ensures DecodeAll(dec, s) == Decoded([], None)
  {
    assert Utf8Encode("" + "\n") == [10];
    RT.ReadTextLine(dec, s.input(), s.pos, "");
    RT.StripNewline("");
    R.LeadingBlankLineSkipped(dec, s);
    NextContinue(dec, s, s.(pos := |s.input()|));
    R.EndOfStreamInHeader(dec, s.(pos := |s.input()|));
  }

  /** The two size lines set Content-Type and then Original-Size to their one-tuple series. */
  lemma {:induction false} SizeHeader(h: map<string, HeaderValue>, a: nat, b: nat)
    ensures HeaderOf(h, [(CONTENT_TYPE, SizeText(a)), (ORIGINAL_SIZE, SizeText(b))]) ==
      h[CONTENT_TYPE := SizeValue(a)][ORIGINAL_SIZE := SizeValue(b)]
  {
    var sizes := [(CONTENT_TYPE, SizeText(a)), (ORIGINAL_SIZE, SizeText(b))];
    SizeSeries(CONTENT_TYPE, a);
    SizeSeries(ORIGINAL_SIZE, b);
    var h1 := h[CONTENT_TYPE := HeaderValueOf(CONTENT_TYPE, SizeText(a))];
    assert sizes[1..] == [(ORIGINAL_SIZE, SizeText(b))] && sizes[1..][1..] == [];
    assert HeaderOf(h, sizes) == HeaderOf(h1, sizes[1..]);
    assert HeaderOf(h1, sizes[1..]) == HeaderOf(h1[ORIGINAL_SIZE := HeaderValueOf(ORIGINAL_SIZE, SizeText(b))], []);
  }

  /** The first `_read()` on a stream laid out as a converted record emits that record. */
  lemma {:induction false} ReadRecordOut(dec: seq<Byte> -> Option<string>, out: seq<Byte>, url: string, es: RT.Entries,
                                         sizes: RT.Entries, h: map<string, HeaderValue>, stored: seq<Byte>, head: seq<Byte>)
    requires DecodesUtf8(dec)
    requires UrlOk(url)
    requires AllShort(es)
    requires AllShort(sizes)
    requires |sizes| > 0 && h == HeaderOf(HeaderOf(map[], es), sizes)
    requires CONTENT_TYPE in h && h[CONTENT_TYPE] == SizeValue(|stored|)
    requires head == Utf8Encode(url) + [10] + Utf8Encode(RT.Lines(es, "\n")) + Utf8Encode(RT.Lines(sizes, "\n")) + [10]
    requires At(out, 0, head) && At(out, |head|, stored)
    ensures Next(dec, Start(out)) == Emitted(OffpageRecord(Some(url), h, map["snapshot" := stored]),
      State(Source(out), |head| + |stored|, Some(url), None, h, map["snapshot" := stored], Data))
  {
    var s4 := State(Source(out), |head|, Some(url), None, h, map[], Data);
    assert RT.Leads(HeaderContinues(dec), Start(out), s4) by {
      HeadSplit(out, Utf8Encode(url), Utf8Encode(RT.Lines(es, "\n")), Utf8Encode(RT.Lines(sizes, "\n")));
      ReadHead(dec, out, url, es, sizes, |head|);
    }
    LeadsNext(dec, Start(out), s4);
    ReadSnapshot(s4, stored);
  }

  /** Where each piece of a record's bytes sits. */
  lemma {:induction false} RecordBytes(out: seq<Byte>, head: seq<Byte>, stored: seq<Byte>)
    requires out == head + stored + [10]
    ensures At(out, 0, head) && At(out, |head|, stored) && At(out, |head| + |stored|, [10])
  {
    assert At(out, 0, out);
    AtSplit(out, 0, head + stored, [10]);
    AtSplit(out, 0, head, stored);
  }

  /** A stream laid out as a converted record is read back as that record, and then ends. */
  lemma {:induction false} ReadConverted(dec: seq<Byte> -> Option<string>, out: seq<Byte>, url: string, es: RT.Entries,
                                         sizes: RT.Entries, h: map<string, HeaderValue>, stored: seq<Byte>, head: seq<Byte>)
    requires DecodesUtf8(dec)
    requires UrlOk(url)
    requires AllShort(es)
    requires AllShort(sizes)
    requires |sizes| > 0 && h == HeaderOf(HeaderOf(map[], es), sizes)
    requires CONTENT_TYPE in h && h[CONTENT_TYPE] == SizeValue(|stored|)
    requires head == Utf8Encode(url) + [10] + Utf8Encode(RT.Lines(es, "\n")) + Utf8Encode(RT.Lines(sizes, "\n")) + [10]
    requires out == head + stored + [10]
    ensures DecodeAll(dec, Start(out)) == Decoded([OffpageRecord(Some(url), h, map["snapshot" := stored])], None)
  {
    RecordBytes(out, head, stored);
    var s5 := State(Source(out), |head| + |stored|, Some(url), None, h, map["snapshot" := stored], Data);
    ReadRecordOut(dec, out, url, es, sizes, h, stored, head);
    ReadTrailer(dec, ResetState(s5));
    OneRecord(dec, Start(out), OffpageRecord(Some(url), h, map["snapshot" := stored]), s5);
  }

  /** `read` from a state whose `_read()` emits a record after which the stream ends yields that one record. */
  lemma {:induction false} OneRecord(dec: seq<Byte> -> Option<string>, s: State, r: OffpageRecord, t: State)
    requires s.Valid() && Next(dec, s) == Emitted(r, t)
    requires DecodeAll(dec, ResetState(t)) == Decoded([], None)
    ensures DecodeAll(dec, s) == Decoded([r], None)
  {
  }

  /**
   * The bytes `_generate` writes, for a buffered inner header made of
   * header lines, are read back as one record carrying the URL, each
   * buffered entry, the sizes parsed as series and the stored bytes under
   * `snapshot`; the final newline is skipped and the stream ends.
   */
  lemma {:induction false} OutputReadsBack(dec: seq<Byte> -> Option<string>, z: C.Zlib, url: string, es: RT.Entries, data: seq<Byte>)
    requires DecodesUtf8(dec)
    requires SimpleCheckUrl(url) && IsStripped(url) && '\n' !in url && |url| <= 1024
    requires forall j :: 0 <= j < |es| ==> RT.ShortEntry(es[j])
    requires SizeFits(|C.Stored(z, data)|) && SizeFits(|data|)
    ensures DecodeAll(dec, Start(C.Output(z, Utf8Encode(url), Utf8Encode(RT.Lines(es, "\n")), data))) ==
      Decoded([ConvertedRecord(z, url, es, data)], None)
  {
    var stored := C.Stored(z, data);
    var sizes := [(CONTENT_TYPE, SizeText(|stored|)), (ORIGINAL_SIZE, SizeText(|data|))];
    var head := Utf8Encode(url) + [10] + Utf8Encode(RT.Lines(es, "\n")) + Utf8Encode(RT.Lines(sizes, "\n")) + [10];
    var out := C.Output(z, Utf8Encode(url), Utf8Encode(RT.Lines(es, "\n")), data);
    assert out == head + stored + [10] by {
      SizeLinesAreEntries(|stored|, |data|);
      Utf8Append(C.SizeLine(C.CONTENT_TYPE, |stored|), C.SizeLine(C.ORIGINAL_SIZE, |data|));
    }
    var h := HeaderOf(HeaderOf(map[], es), sizes);
    assert h == ConvertedRecord(z, url, es, data).header by {
      SizeHeader(HeaderOf(map[], es), |stored|, |data|);
    }
    assert CONTENT_TYPE in h && h[CONTENT_TYPE] == SizeValue(|stored|) by {
      SizeHeader(HeaderOf(map[], es), |stored|, |data|);
      assert CONTENT_TYPE != ORIGINAL_SIZE;
    }
    assert AllShort(sizes) by {
      SizeEntryOk(CONTENT_TYPE, |stored|);
      SizeEntryOk(ORIGINAL_SIZE, |data|);
    }
    ReadConverted(dec, out, url, es, sizes, h, stored, head);
  }
}
