/**
 * Reading back what the encoder writes: the primary stream decoder,
 * started before the layout `dumps` produces, yields a record with the
 * same URL, the string form of each written header value, the http
 * headers (a later duplicate key winning) and the stored bytes, or no
 * payload when the record has none. Several records written one after
 * the other are read back in order.
 */
module RoundTrip {
  import opened Basics
  import opened Text
  import opened DefaultSchema
  import opened Validator
  import opened SpageWriter
  import opened SpageReader

  /** A line of text the encoder wrote is read back whole, and decodes to itself. */
  lemma {:induction false} ReadTextLine(dec: seq<Byte> -> Option<string>, input: seq<Byte>, pos: nat, text: string)
    requires DecodesUtf8(dec) && '\n' !in text
    requires At(input, pos, Utf8Encode(text + "\n"))
    ensures pos < LineEnd(input, pos) == pos + |Utf8Encode(text + "\n")|
    ensures dec(input[pos..LineEnd(input, pos)]) == Some(text + "\n")
  {
    var b := Utf8Encode(text + "\n");
    Utf8Append(text, "\n");
    assert Utf8Encode("\n") == [10];
    Utf8Ascii(text, '\n');
    assert b[..|b| - 1] == Utf8Encode(text);
    LineEndOf(input, pos, b);
  }

  // ---------------------------------------------------------------------
  // One header line
  // ---------------------------------------------------------------------

  /** A key the encoder writes and the decoder can split off again. */
  predicate KeyOk(k: string)
  {
    |k| > 0 && IsStripped(k) && ':' !in k && '\n' !in k
  }

  lemma {:induction false} FindAfter(a: string, b: string)
    requires ':' !in a
    ensures Find(a + [':'] + b, ':') == |a|
  {
    var s := a + [':'] + b;
    assert forall i :: 0 <= i < |a| ==> s[i] == a[i];
    FindAt(s, ':', |a|);
  }

  /** The stripped text of a written line `K: V` plus its line ending. */
  lemma {:induction false} StripHeaderLine(k: string, v: string, eol: string)
    requires |k| > 0 && IsStripped(k) && IsStripped(v) && AllSpace(eol)
    ensures Strip(k + ": " + v + eol) == if |v| > 0 then k + ": " + v else k + ":"
  {
    if |v| > 0 {
      assert "" + (k + ": " + v) + eol == k + ": " + v + eol;
      StripSurrounded("", k + ": " + v, eol);
    } else {
      assert "" + (k + ":") + (" " + eol) == k + ": " + v + eol;
      StripSurrounded("", k + ":", " " + eol);
    }
  }

  lemma {:induction false} ColonEndedIsNotUrl(k: string)
    requires ':' !in k
    ensures !SimpleCheckUrl(k + ":")
  {
    var line := k + ":";
    assert !StartsWith(line, "http://") by {
      if |k| > 4 {
        assert line[4] == k[4] && "http://"[4] == ':';
      }
    }
    assert !StartsWith(line, "https://") by {
      if |k| > 5 {
        assert line[5] == k[5] && "https://"[5] == ':';
      }
    }
  }

  /**
   * A written header line, once stripped, is neither blank nor a URL, and
   * splits back into its key and value.
   */
  lemma {:induction false} DecodeHeaderLine(k: string, v: string, eol: string)
    requires KeyOk(k) && IsStripped(v) && AllSpace(eol)
    ensures var l := Strip(k + ": " + v + eol);
      0 < |l| <= |k| + 2 + |v| && !SimpleCheckUrl(l) && HeaderPair(l) == Some((k, v))
  {
    StripHeaderLine(k, v, eol);
    if |v| > 0 {
      DecodeFullLine(k, v);
    } else {
      DecodeEmptyValueLine(k);
    }
  }

  lemma {:induction false} DecodeFullLine(k: string, v: string)
    requires KeyOk(k) && IsStripped(v) && |v| > 0
    ensures var l := k + ": " + v; !SimpleCheckUrl(l) && HeaderPair(l) == Some((k, v))
  {
    var l := k + ": " + v;
    HeaderLineIsNotUrl(k, v);
    assert l == k + [':'] + (" " + v);
    FindAfter(k, " " + v);
    assert l[..|k|] == k && l[|k| + 1..] == " " + v;
    StripOfStripped(k);
    assert " " + v + "" == " " + v;
    StripSurrounded(" ", v, "");
  }

  lemma {:induction false} DecodeEmptyValueLine(k: string)
    requires KeyOk(k)
    ensures var l := k + ":"; !SimpleCheckUrl(l) && HeaderPair(l) == Some((k, ""))
  {
    var l := k + ":";
    ColonEndedIsNotUrl(k);
    assert l == k + [':'] + "";
    FindAfter(k, "");
    assert l[..|k|] == k && l[|k| + 1..] == "";
    StripOfStripped(k);
    StripOfStripped("");
  }
  // ---------------------------------------------------------------------
  // Header entries and the maps the decoder builds
  // ---------------------------------------------------------------------

  /** A header as `(key, value)` entries in the order its lines are written. */
  type Entries = seq<(string, string)>

  /** The entries the header block writes: each configured key that has a non-None value. */
  function BlockEntries(keys: seq<string>, ih: map<string, Value>): Entries
  {
    if |keys| == 0 then []
    else
      var k := keys[|keys| - 1];
      BlockEntries(keys[..|keys| - 1], ih) +
        if k in ih && ih[k] != Null then [(Strip(k), Strip(ValueText(ih[k])))] else []
  }

  /** The entries the http header writes: every pair, stripped. */
  function PairEntries(pairs: seq<(string, string)>): (es: Entries)
    ensures |es| == |pairs|
  {
    if |pairs| == 0 then [] else [(Strip(pairs[0].0), Strip(pairs[0].1))] + PairEntries(pairs[1..])
  }

  /** The lines `key: value`, each ended by `eol`. */
  function Lines(es: Entries, eol: string): string
  {
    if |es| == 0 then "" else es[0].0 + ": " + es[0].1 + eol + Lines(es[1..], eol)
  }

  /** The map built by storing the entries one after the other: a later key replaces an earlier one. */
  function Fold(m: map<string, string>, es: Entries): map<string, string>
    decreases |es|
  {
    if |es| == 0 then m else Fold(m[es[0].0 := es[0].1], es[1..])
  }

  function EntryKeys(es: Entries): set<string>
  {
    if |es| == 0 then {} else {es[0].0} + EntryKeys(es[1..])
  }

  /** The inner header read back: each configured key with a non-None value, set to its value's string form. */
  function InnerMap(keys: seq<string>, ih: map<string, Value>): map<string, string>
  {
    if |keys| == 0 then map[]
    else
      var m := InnerMap(keys[..|keys| - 1], ih);
      var k := keys[|keys| - 1];
      if k in ih && ih[k] != Null then m[Strip(k) := Strip(ValueText(ih[k]))] else m
  }

  /** The entries the http header writes: none for an absent mapping, else its stripped pairs in order. */
  function HttpEntries(http: Option<seq<(string, string)>>): Entries
  {
    if http.None? then [] else PairEntries(http.value)
  }

  /** The http header read back. */
  function HttpMap(http: Option<seq<(string, string)>>): map<string, string>
  {
    Fold(map[], HttpEntries(http))
  }

  /** The record the decoder yields for a written one. */
  function Expected(keys: seq<string>, rec: Record): SpageRecord
  {
    SpageRecord(Some(rec.url), InnerMap(keys, rec.inner), HttpMap(rec.http), rec.data)
  }

  lemma {:induction false} ConsTail<T>(a: seq<T>, e: T)
    requires |a| > 0
    ensures (a + [e])[1..] == a[1..] + [e] && (a + [e])[0] == a[0]
  {
  }

  lemma {:induction false} SingleTail<T>(e: T)
    ensures [e][1..] == [] && [e][0] == e
  {
  }

  lemma {:induction false} AppendEmpty<T>(a: seq<T>)
    ensures a + [] == a && [] + a == a
  {
  }

  /** An entry stored last replaces any earlier value of its key. */
  lemma {:induction false} FoldSnoc(m: map<string, string>, es: Entries, e: (string, string))
    ensures Fold(m, es + [e]) == Fold(m, es)[e.0 := e.1]
    decreases |es|
  {
    if |es| == 0 {
      AppendEmpty([e]);
      SingleTail(e);
    } else {
      ConsTail(es, e);
      FoldSnoc(m[es[0].0 := es[0].1], es[1..], e);
    }
  }

  /** The keys of the map built are those it started with and the keys of the entries. */
  lemma {:induction false} FoldKeys(m: map<string, string>, es: Entries)
    ensures Fold(m, es).Keys == m.Keys + EntryKeys(es)
    decreases |es|
  {
    if |es| > 0 {
      FoldKeys(m[es[0].0 := es[0].1], es[1..]);
    }
  }

  lemma {:induction false} LinesSnoc(es: Entries, e: (string, string), eol: string)
    ensures Lines(es + [e], eol) == Lines(es, eol) + (e.0 + ": " + e.1 + eol)
    decreases |es|
  {
    var last := e.0 + ": " + e.1 + eol;
    if |es| == 0 {
      AppendEmpty([e]);
      SingleTail(e);
      AppendEmpty(last);
    } else {
      var first := es[0].0 + ": " + es[0].1 + eol;
      ConsTail(es, e);
      LinesSnoc(es[1..], e, eol);
      AppendAssoc(first, Lines(es[1..], eol), last);
    }
  }

  /** The header block is the lines of its entries. */
  lemma {:induction false} BlockLines(keys: seq<string>, ih: map<string, Value>)
    ensures HeaderBlock(keys, ih) == Lines(BlockEntries(keys, ih), "\n")
    decreases |keys|
  {
    if |keys| > 0 {
      var pre, k := keys[..|keys| - 1], keys[|keys| - 1];
      BlockLines(pre, ih);
      if k in ih && ih[k] != Null {
        LinesSnoc(BlockEntries(pre, ih), (Strip(k), Strip(ValueText(ih[k]))), "\n");
      } else {
        AppendEmpty(BlockEntries(pre, ih));
        AppendEmpty(HeaderBlock(pre, ih));
      }
    }
  }

  /** The inner header read back is the map the block's entries build. */
  lemma {:induction false} InnerMapFold(keys: seq<string>, ih: map<string, Value>)
    ensures InnerMap(keys, ih) == Fold(map[], BlockEntries(keys, ih))
    decreases |keys|
  {
    if |keys| > 0 {
      var pre, k := keys[..|keys| - 1], keys[|keys| - 1];
      InnerMapFold(pre, ih);
      if k in ih && ih[k] != Null {
        FoldSnoc(map[], BlockEntries(pre, ih), (Strip(k), Strip(ValueText(ih[k]))));
      } else {
        AppendEmpty(BlockEntries(pre, ih));
      }
    }
  }

  /** Exactly the configured keys present with a non-None value come back, each as its value's string form. */
  lemma {:induction false} InnerMapContents(keys: seq<string>, ih: map<string, Value>)
    requires forall i :: 0 <= i < |keys| ==> IsStripped(keys[i])
    ensures forall k :: k in InnerMap(keys, ih) <==> k in keys && k in ih && ih[k] != Null
    ensures forall k :: k in InnerMap(keys, ih) ==> InnerMap(keys, ih)[k] == Strip(ValueText(ih[k]))
  {
    forall x
      ensures x in InnerMap(keys, ih) <==> x in keys && x in ih && ih[x] != Null
      ensures x in InnerMap(keys, ih) ==> InnerMap(keys, ih)[x] == Strip(ValueText(ih[x]))
    {
      InnerMapAt(keys, ih, x);
    }
  }

  lemma {:induction false} InnerMapAt(keys: seq<string>, ih: map<string, Value>, x: string)
    requires forall i :: 0 <= i < |keys| ==> IsStripped(keys[i])
    ensures x in InnerMap(keys, ih) <==> x in keys && x in ih && ih[x] != Null
    ensures x in InnerMap(keys, ih) ==> InnerMap(keys, ih)[x] == Strip(ValueText(ih[x]))
    decreases |keys|
  {
    if |keys| > 0 {
      var pre := keys[..|keys| - 1];
      InnerMapAt(pre, ih, x);
      InnerMapStep(keys, ih, x);
    }
  }

  lemma {:induction false} InnerMapStep(keys: seq<string>, ih: map<string, Value>, x: string)
    requires |keys| > 0 && IsStripped(keys[|keys| - 1])
    requires var m := InnerMap(keys[..|keys| - 1], ih);
      (x in m <==> x in keys[..|keys| - 1] && x in ih && ih[x] != Null) &&
      (x in m ==> m[x] == Strip(ValueText(ih[x])))
    ensures x in InnerMap(keys, ih) <==> x in keys && x in ih && ih[x] != Null
    ensures x in InnerMap(keys, ih) ==> InnerMap(keys, ih)[x] == Strip(ValueText(ih[x]))
  {
    var k := keys[|keys| - 1];
    var m := InnerMap(keys[..|keys| - 1], ih);
    StripOfStripped(k);
    InMembers(keys, x);
    if k in ih && ih[k] != Null {
      var v := Strip(ValueText(ih[k]));
      assert InnerMap(keys, ih) == m[k := v];
      if x == k {
        assert InnerMap(keys, ih)[x] == v;
      } else {
        assert x in InnerMap(keys, ih) ==> InnerMap(keys, ih)[x] == m[x];
      }
    } else {
      assert InnerMap(keys, ih) == m;
    }
  }

  lemma {:induction false} InMembers<T>(s: seq<T>, x: T)
    requires |s| > 0
    ensures x in s <==> x in s[..|s| - 1] || x == s[|s| - 1]
  {
    assert s == s[..|s| - 1] + [s[|s| - 1]];
  }

  /** A block with at least one line leaves at least one header for the blank line to act on. */
  lemma {:induction false} InnerMapNonEmpty(keys: seq<string>, ih: map<string, Value>)
    requires |HeaderBlock(keys, ih)| > 0
    ensures InnerMap(keys, ih) != map[]
    decreases |keys|
  {
    var pre := keys[..|keys| - 1];
    var k := keys[|keys| - 1];
    if k in ih && ih[k] != Null {
      assert Strip(k) in InnerMap(keys, ih);
    } else {
      InnerMapNonEmpty(pre, ih);
      var x :| x in InnerMap(pre, ih);
      assert x in InnerMap(keys, ih);
    }
  }

  /** Each part followed by the separator. */
  function Terminated<T>(parts: seq<seq<T>>, sep: seq<T>): seq<T>
  {
    if |parts| == 0 then [] else parts[0] + sep + Terminated(parts[1..], sep)
  }

  /** Parts joined by a separator, then one more separator, are the parts each terminated by it. */
  lemma {:induction false} JoinTerminated<T>(parts: seq<seq<T>>, sep: seq<T>)
    requires |parts| > 0
    ensures Join(parts, sep) + sep == Terminated(parts, sep)
    decreases |parts|
  {
    if |parts| == 1 {
      assert parts[1..] == [];
      AppendEmpty(parts[0] + sep);
    } else {
      JoinTerminated(parts[1..], sep);
      AppendAssoc(parts[0] + sep, Join(parts[1..], sep), sep);
    }
  }

  lemma {:induction false} LinesTerminated(pairs: seq<(string, string)>)
    ensures Lines(PairEntries(pairs), "\r\n") == Terminated(HttpLines(pairs), "\r\n")
    decreases |pairs|
  {
    if |pairs| > 0 {
      var e := (Strip(pairs[0].0), Strip(pairs[0].1));
      LinesCons(e, PairEntries(pairs[1..]), "\r\n");
      HttpLinesTail(pairs);
      LinesTerminated(pairs[1..]);
    }
  }

  lemma {:induction false} LinesCons(e: (string, string), rest: Entries, eol: string)
    ensures Lines([e] + rest, eol) == e.0 + ": " + e.1 + eol + Lines(rest, eol)
  {
    assert ([e] + rest)[1..] == rest;
  }

  lemma {:induction false} HttpLinesTail(pairs: seq<(string, string)>)
    requires |pairs| > 0
    ensures HttpLines(pairs)[0] == Strip(pairs[0].0) + ": " + Strip(pairs[0].1)
    ensures HttpLines(pairs)[1..] == HttpLines(pairs[1..])
  {
    var a, b := HttpLines(pairs)[1..], HttpLines(pairs[1..]);
    forall i | 0 <= i < |b| ensures a[i] == b[i] {
      assert pairs[1..][i] == pairs[i + 1];
    }
  }

  /** The http text `dumps` writes, with its closing blank line, is the lines of the stripped pairs and a CRLF. */
  lemma {:induction false} HttpText(pairs: seq<(string, string)>)
    requires |pairs| > 0
    ensures Join(HttpLines(pairs), "\r\n") + "\r\n\r\n" == Lines(PairEntries(pairs), "\r\n") + "\r\n"
  {
    var j := Join(HttpLines(pairs), "\r\n");
    assert "\r\n\r\n" == "\r\n" + "\r\n";
    AppendAssoc(j, "\r\n", "\r\n");
    JoinTerminated(HttpLines(pairs), "\r\n");
    LinesTerminated(pairs);
  }

  // ---------------------------------------------------------------------
  // Conditions under which a record reads back
  // ---------------------------------------------------------------------

  /** An entry whose line is one line and splits back into this key and value. */
  predicate EntryOk(e: (string, string))
  {
    KeyOk(e.0) && IsStripped(e.1) && '\n' !in e.1
  }

  /** An inner-header entry whose line also stays within the decoder's 1024-character limit. */
  predicate ShortEntry(e: (string, string))
  {
    EntryOk(e) && |e.0| + 2 + |e.1| <= 1024
  }

  /** A value whose line is one line and within the 1024-character limit. */
  predicate LineValueOk(k: string, v: Value)
  {
    '\n' !in ValueText(v) && |k| + 2 + |Strip(ValueText(v))| <= 1024
  }

  predicate BlockOk(keys: seq<string>, ih: map<string, Value>)
  {
    forall i :: 0 <= i < |keys| ==>
      KeyOk(keys[i]) && (keys[i] in ih && ih[keys[i]] != Null ==> LineValueOk(keys[i], ih[keys[i]]))
  }

  /** An http pair whose line splits back into its stripped key and value. */
  predicate PairOk(p: (string, string))
  {
    |Strip(p.0)| > 0 && ':' !in p.0 && '\n' !in p.0 && '\n' !in p.1
  }

  /**
   * What a record must satisfy to read back: a URL line the decoder
   * takes for one, header lines it splits back, at least one header line,
   * a Store-Size line exactly when there is a payload, and no payload
   * starting with CRLF behind an empty http header.
   */
  predicate Encodable(keys: seq<string>, rec: Record)
  {
    SimpleCheckUrl(rec.url) && IsStripped(rec.url) && '\n' !in rec.url && |rec.url| <= 1024 &&
    BlockOk(keys, rec.inner) && |HeaderBlock(keys, rec.inner)| > 0 &&
    (rec.http.Some? ==> forall i :: 0 <= i < |rec.http.value| ==> PairOk(rec.http.value[i])) &&
    match rec.data
    case Some(d) =>
      STORE_SIZE in keys && STORE_SIZE in rec.inner && rec.inner[STORE_SIZE] == Num(|d|) &&
      (HttpHeaderStr(rec.http).None? ==> |d| < 2 || d[..2] != [13, 10])
    case None =>
      !(STORE_SIZE in keys && STORE_SIZE in rec.inner && rec.inner[STORE_SIZE] != Null)
  }

  lemma {:induction false} BlockEntriesOk(keys: seq<string>, ih: map<string, Value>)
    requires BlockOk(keys, ih)
    ensures forall j :: 0 <= j < |BlockEntries(keys, ih)| ==> ShortEntry(BlockEntries(keys, ih)[j])
    decreases |keys|
  {
    if |keys| > 0 {
      var pre, k := keys[..|keys| - 1], keys[|keys| - 1];
      BlockEntriesOk(pre, ih);
      if k in ih && ih[k] != Null {
        StripOfStripped(k);
        StripKeepsAbsent(ValueText(ih[k]), '\n');
        assert ShortEntry((Strip(k), Strip(ValueText(ih[k]))));
      } else {
        AppendEmpty(BlockEntries(pre, ih));
      }
    }
  }

  lemma {:induction false} PairEntriesOk(pairs: seq<(string, string)>)
    requires forall i :: 0 <= i < |pairs| ==> PairOk(pairs[i])
    ensures forall j :: 0 <= j < |PairEntries(pairs)| ==> EntryOk(PairEntries(pairs)[j])
    decreases |pairs|
  {
    if |pairs| > 0 {
      PairEntriesOk(pairs[1..]);
      var p := pairs[0];
      StripKeepsAbsent(p.0, ':');
      StripKeepsAbsent(p.0, '\n');
      StripKeepsAbsent(p.1, '\n');
      assert EntryOk((Strip(p.0), Strip(p.1)));
    }
  }

  // ---------------------------------------------------------------------
  // Reading one line
  // ---------------------------------------------------------------------

  lemma {:induction false} NextContinue(dec: seq<Byte> -> Option<string>, s: State, t: State)
    requires s.Valid() && StepOf(dec, s) == Continue(t)
    ensures Next(dec, s) == Next(dec, t)
  {
  }

  lemma {:induction false} AtEq(input: seq<Byte>, pos: nat, a: seq<Byte>, b: seq<Byte>)
    requires At(input, pos, a) && a == b
    ensures At(input, pos, b)
  {
  }

  /** A line that decodes, read in the inner-header state: consumed whole and stripped. */
  lemma {:induction false} InnerLineStep(dec: seq<Byte> -> Option<string>, s: State, line: string)
    requires s.Valid() && s.phase == InnerHeader && s.pos < |s.input()|
    requires dec(s.input()[s.pos..LineEnd(s.input(), s.pos)]) == Some(line)
    ensures InnerHeaderStep(dec, s) == Continue(InnerHeaderLine(s.(pos := LineEnd(s.input(), s.pos)), Strip(line)))
  {
  }

  /** A line that decodes, read in the http-header state: consumed whole and stripped. */
  lemma {:induction false} HttpLineStep(dec: seq<Byte> -> Option<string>, s: State, line: string)
    requires s.Valid() && s.phase == HttpHeader && s.pos < |s.input()|
    requires dec(s.input()[s.pos..LineEnd(s.input(), s.pos)]) == Some(line)
    ensures HttpHeaderStep(dec, s) == Continue(HttpHeaderLine(s.(pos := LineEnd(s.input(), s.pos)), Strip(line)))
  {
  }

  /** A line's bytes: its text's encoding and the newline byte. */
  lemma {:induction false} LineBytes(text: string)
    ensures Utf8Encode(text + "\n") == Utf8Encode(text) + [10]
  {
    Utf8Append(text, "\n");
    assert Utf8Encode("\n") == [10];
  }

  lemma {:induction false} StripNewline(text: string)
    requires IsStripped(text)
    ensures Strip(text + "\n") == text
  {
    assert "" + text + "\n" == text + "\n";
    StripSurrounded("", text, "\n");
  }

  /** The written URL line starts a new record holding that URL and nothing else. */
  lemma {:induction false} ReadUrlLine(dec: seq<Byte> -> Option<string>, s: State, url: string)
    requires DecodesUtf8(dec) && s.Valid() && s.phase == InnerHeader
    requires SimpleCheckUrl(url) && IsStripped(url) && '\n' !in url && |url| <= 1024
    requires At(s.input(), s.pos, Utf8Encode(url) + [10])
    ensures InnerHeaderStep(dec, s) == Continue(ResetState(s).(pos := s.pos + |Utf8Encode(url)| + 1, url := Some(url)))
  {
    LineBytes(url);
    AtEq(s.input(), s.pos, Utf8Encode(url) + [10], Utf8Encode(url + "\n"));
    ReadTextLine(dec, s.input(), s.pos, url);
    InnerLineStep(dec, s, url + "\n");
    StripNewline(url);
  }

  /** The line `K: V` read in the inner-header state sets `K` to `V`. */
  lemma {:induction false} ReadInnerText(dec: seq<Byte> -> Option<string>, s: State, e: (string, string))
    requires DecodesUtf8(dec) && s.Valid() && s.phase == InnerHeader && ShortEntry(e)
    requires At(s.input(), s.pos, Utf8Encode(e.0 + ": " + e.1 + "\n"))
    ensures InnerHeaderStep(dec, s) ==
      Continue(s.(pos := s.pos + |Utf8Encode(e.0 + ": " + e.1 + "\n")|, inner := s.inner[e.0 := e.1]))
  {
    var (k, val) := e;
    ReadTextLine(dec, s.input(), s.pos, k + ": " + val);
    InnerLineStep(dec, s, k + ": " + val + "\n");
    InnerLineStored(s.(pos := LineEnd(s.input(), s.pos)), k, val);
  }

  /** The stripped text of a written header line stores its value under its key. */
  lemma {:induction false} InnerLineStored(t: State, k: string, val: string)
    requires KeyOk(k) && IsStripped(val) && |k| + 2 + |val| <= 1024
    ensures InnerHeaderLine(t, Strip(k + ": " + val + "\n")) == t.(inner := t.inner[k := val])
  {
    DecodeHeaderLine(k, val, "\n");
  }

  /** The line `K: V` ended by CRLF, read in the http-header state, sets `K` to `V`. */
  lemma {:induction false} ReadHttpText(dec: seq<Byte> -> Option<string>, s: State, e: (string, string))
    requires DecodesUtf8(dec) && s.Valid() && s.phase == HttpHeader && EntryOk(e)
    requires At(s.input(), s.pos, Utf8Encode(e.0 + ": " + e.1 + "\r\n"))
    ensures HttpHeaderStep(dec, s) ==
      Continue(s.(pos := s.pos + |Utf8Encode(e.0 + ": " + e.1 + "\r\n")|, http := s.http[e.0 := e.1]))
  {
    var (k, val) := e;
    var text := k + ": " + val + "\r";
    assert text + "\n" == k + ": " + val + "\r\n";
    ReadTextLine(dec, s.input(), s.pos, text);
    HttpLineStep(dec, s, text + "\n");
    HttpLineStored(s.(pos := LineEnd(s.input(), s.pos)), k, val);
  }

  lemma {:induction false} HttpLineStored(t: State, k: string, val: string)
    requires KeyOk(k) && IsStripped(val)
    ensures HttpHeaderLine(t, Strip(k + ": " + val + "\r\n")) == t.(http := t.http[k := val])
  {
    DecodeHeaderLine(k, val, "\r\n");
  }

  /** The blank line after the header lines moves the decoder on to the http header. */
  lemma {:induction false} ReadBlankInner(dec: seq<Byte> -> Option<string>, s: State)
    requires DecodesUtf8(dec) && s.Valid() && s.phase == InnerHeader
    requires s.inner != map[] && Truthy(s.url)
    requires At(s.input(), s.pos, [10])
    ensures InnerHeaderStep(dec, s) == Continue(s.(pos := s.pos + 1, phase := HttpHeader))
  {
    assert Utf8Encode("" + "\n") == [10];
    ReadTextLine(dec, s.input(), s.pos, "");
    assert "" + "" + "\n" == "\n";
    StripSurrounded("", "", "\n");
  }

  /** The CRLF closing the http header moves the decoder on to the payload. */
  lemma {:induction false} ReadBlankHttp(dec: seq<Byte> -> Option<string>, s: State)
    requires DecodesUtf8(dec) && s.Valid() && s.phase == HttpHeader
    requires At(s.input(), s.pos, [13, 10])
    ensures HttpHeaderStep(dec, s) == Continue(s.(pos := s.pos + 2, phase := Data))
  {
    CrlfBytes();
    ReadTextLine(dec, s.input(), s.pos, "\r");
    assert "" + "" + "\r\n" == "\r" + "\n";
    StripSurrounded("", "", "\r\n");
  }

  /** The CRLF left after a payload, read before any header of the next record, changes nothing. */
  lemma {:induction false} SkipBlankInner(dec: seq<Byte> -> Option<string>, s: State)
    requires DecodesUtf8(dec) && s.Valid() && s.phase == InnerHeader && s.inner == map[]
    requires At(s.input(), s.pos, [13, 10])
    ensures InnerHeaderStep(dec, s) == Continue(s.(pos := s.pos + 2))
  {
    CrlfBytes();
    ReadTextLine(dec, s.input(), s.pos, "\r");
    assert "" + "" + "\r\n" == "\r" + "\n";
    StripSurrounded("", "", "\r\n");
  }

  lemma {:induction false} CrlfBytes()
    ensures Utf8Encode("\r" + "\n") == [13, 10]
  {
    var s := "\r" + "\n";
    assert s[0] == '\r' && s[1..] == "\n" && "\n"[1..] == "";
    assert Utf8Encode("\n") == [10] + [];
  }

  // ---------------------------------------------------------------------
  // The bytes of written lines
  // ---------------------------------------------------------------------

  /** The bytes of written lines: those of the first line, then those of the rest. */
  lemma {:induction false} SplitLines(input: seq<Byte>, pos: nat, es: Entries, eol: string)
    requires |es| > 0 && At(input, pos, Utf8Encode(Lines(es, eol)))
    ensures var first := Utf8Encode(es[0].0 + ": " + es[0].1 + eol);
      At(input, pos, first) && At(input, pos + |first|, Utf8Encode(Lines(es[1..], eol))) &&
      |Utf8Encode(Lines(es, eol))| == |first| + |Utf8Encode(Lines(es[1..], eol))|
  {
    var line, rest := es[0].0 + ": " + es[0].1 + eol, Lines(es[1..], eol);
    Utf8Append(line, rest);
    AtSplit(input, pos, Utf8Encode(line), Utf8Encode(rest));
  }

  // ---------------------------------------------------------------------
  // Runs of steps
  // ---------------------------------------------------------------------

  /** From `s`, `n` applications of `f` that each give a state lead to `t`. */
  ghost predicate Chain<S>(f: S -> Option<S>, s: S, t: S, n: nat)
    decreases n
  {
    if n == 0 then s == t else f(s).Some? && Chain(f, f(s).value, t, n - 1)
  }

  /** Some number of applications of `f` lead from `s` to `t`. */
  ghost predicate Leads<S>(f: S -> Option<S>, s: S, t: S)
  {
    exists n: nat :: Chain(f, s, t, n)
  }

  lemma {:induction false} LeadsRefl<S>(f: S -> Option<S>, s: S)
    ensures Leads(f, s, s)
  {
    assert Chain(f, s, s, 0);
  }

  lemma {:induction false} LeadsStep<S>(f: S -> Option<S>, s: S, s1: S, t: S)
    requires f(s) == Some(s1) && Leads(f, s1, t)
    ensures Leads(f, s, t)
  {
    var n: nat :| Chain(f, s1, t, n);
    assert Chain(f, s, t, n + 1);
  }

  lemma {:induction false} ChainTrans<S>(f: S -> Option<S>, s: S, t: S, u: S, n: nat, m: nat)
    requires Chain(f, s, t, n) && Chain(f, t, u, m)
    ensures Chain(f, s, u, n + m)
    decreases n
  {
    if n > 0 {
      ChainTrans(f, f(s).value, t, u, n - 1, m);
    }
  }

  lemma {:induction false} LeadsTrans<S>(f: S -> Option<S>, s: S, t: S, u: S)
    requires Leads(f, s, t) && Leads(f, t, u)
    ensures Leads(f, s, u)
  {
    var n: nat :| Chain(f, s, t, n);
    var m: nat :| Chain(f, t, u, m);
    ChainTrans(f, s, t, u, n, m);
  }

  /** One step of the decoder in a header state that goes on reading, as a partial map on states. */
  function HeaderContinues(dec: seq<Byte> -> Option<string>): State -> Option<State>
  {
    (x: State) =>
      if !x.Valid() then None
      else if x.phase == InnerHeader && InnerHeaderStep(dec, x).Continue? then Some(InnerHeaderStep(dec, x).next)
      else if x.phase == HttpHeader && HttpHeaderStep(dec, x).Continue? then Some(HttpHeaderStep(dec, x).next)
      else None
  }

  lemma {:induction false} InnerLeads(dec: seq<Byte> -> Option<string>, s: State, s1: State, t: State)
    requires s.Valid() && s.phase == InnerHeader && InnerHeaderStep(dec, s) == Continue(s1)
    requires Leads(HeaderContinues(dec), s1, t)
    ensures Leads(HeaderContinues(dec), s, t)
  {
    assert HeaderContinues(dec)(s) == Some(s1);
    LeadsStep(HeaderContinues(dec), s, s1, t);
  }

  lemma {:induction false} HttpLeads(dec: seq<Byte> -> Option<string>, s: State, s1: State, t: State)
    requires s.Valid() && s.phase == HttpHeader && HttpHeaderStep(dec, s) == Continue(s1)
    requires Leads(HeaderContinues(dec), s1, t)
    ensures Leads(HeaderContinues(dec), s, t)
  {
    assert HeaderContinues(dec)(s) == Some(s1);
    LeadsStep(HeaderContinues(dec), s, s1, t);
  }

  lemma {:induction false} HeaderStepOf(dec: seq<Byte> -> Option<string>, s: State, s1: State)
    requires HeaderContinues(dec)(s) == Some(s1)
    ensures s.Valid() && StepOf(dec, s) == Continue(s1)
  {
  }

  /** A value that no application of `f` changes is the same at both ends of a run. */
  lemma {:induction false} ChainKeeps<S, R>(f: S -> Option<S>, g: S -> R, s: S, t: S, n: nat)
    requires Chain(f, s, t, n)
    requires forall x :: f(x).Some? ==> g(f(x).value) == g(x)
    ensures g(t) == g(s)
    decreases n
  {
    if n > 0 {
      ChainKeeps(f, g, f(s).value, t, n - 1);
    }
  }

  /** What `_read()` returns from a state, when the state is one it accepts. */
  ghost function NextOf(dec: seq<Byte> -> Option<string>): State -> Option<Outcome>
  {
    (x: State) => if x.Valid() then Some(Next(dec, x)) else None
  }

  /** A header step that goes on reading does not change what `_read()` returns. */
  lemma {:induction false} HeaderKeepsNext(dec: seq<Byte> -> Option<string>, x: State)
    requires HeaderContinues(dec)(x).Some?
    ensures NextOf(dec)(HeaderContinues(dec)(x).value) == NextOf(dec)(x)
  {
    var y := HeaderContinues(dec)(x).value;
    HeaderStepOf(dec, x, y);
    NextContinue(dec, x, y);
  }

  /** Header steps that go on reading do not change what `_read()` returns. */
  lemma {:induction false} LeadsNext(dec: seq<Byte> -> Option<string>, s: State, t: State)
    requires s.Valid() && Leads(HeaderContinues(dec), s, t)
    ensures t.Valid() && Next(dec, s) == Next(dec, t)
  {
    var n: nat :| Chain(HeaderContinues(dec), s, t, n);
    forall x | HeaderContinues(dec)(x).Some?
      ensures NextOf(dec)(HeaderContinues(dec)(x).value) == NextOf(dec)(x)
    {
      HeaderKeepsNext(dec, x);
    }
    ChainKeeps(HeaderContinues(dec), NextOf(dec), s, t, n);
  }

  // ---------------------------------------------------------------------
  // Reading a run of header lines
  // ---------------------------------------------------------------------

  /** The first written line of entries, read in the inner-header state, stores the first entry. */
  lemma {:induction false} EntryStep(dec: seq<Byte> -> Option<string>, s: State, es: Entries, s1: State)
    requires DecodesUtf8(dec) && s.Valid() && s.phase == InnerHeader
    requires |es| > 0 && ShortEntry(es[0])
    requires At(s.input(), s.pos, Utf8Encode(Lines(es, "\n")))
    requires s1 == s.(pos := s.pos + |Utf8Encode(es[0].0 + ": " + es[0].1 + "\n")|, inner := s.inner[es[0].0 := es[0].1])
    ensures InnerHeaderStep(dec, s) == Continue(s1)
    ensures At(s.input(), s1.pos, Utf8Encode(Lines(es[1..], "\n")))
    ensures s1.pos + |Utf8Encode(Lines(es[1..], "\n"))| == s.pos + |Utf8Encode(Lines(es, "\n"))|
  {
    SplitLines(s.input(), s.pos, es, "\n");
    ReadInnerText(dec, s, es[0]);
  }

  /** The first written line of entries, read in the http-header state, stores the first entry. */
  lemma {:induction false} HttpEntryStep(dec: seq<Byte> -> Option<string>, s: State, es: Entries, s1: State)
    requires DecodesUtf8(dec) && s.Valid() && s.phase == HttpHeader
    requires |es| > 0 && EntryOk(es[0])
    requires At(s.input(), s.pos, Utf8Encode(Lines(es, "\r\n")))
    requires s1 == s.(pos := s.pos + |Utf8Encode(es[0].0 + ": " + es[0].1 + "\r\n")|, http := s.http[es[0].0 := es[0].1])
    ensures HttpHeaderStep(dec, s) == Continue(s1)
    ensures At(s.input(), s1.pos, Utf8Encode(Lines(es[1..], "\r\n")))
    ensures s1.pos + |Utf8Encode(Lines(es[1..], "\r\n"))| == s.pos + |Utf8Encode(Lines(es, "\r\n"))|
  {
    SplitLines(s.input(), s.pos, es, "\r\n");
    ReadHttpText(dec, s, es[0]);
  }

  /** The written lines of entries, read in the inner-header state, store each entry in turn. */
  lemma {:induction false} ReadEntries(dec: seq<Byte> -> Option<string>, s: State, es: Entries, t: State)
    requires DecodesUtf8(dec) && s.Valid() && s.phase == InnerHeader
    requires forall j :: 0 <= j < |es| ==> ShortEntry(es[j])
    requires At(s.input(), s.pos, Utf8Encode(Lines(es, "\n")))
    requires t == s.(pos := s.pos + |Utf8Encode(Lines(es, "\n"))|, inner := Fold(s.inner, es))
    ensures Leads(HeaderContinues(dec), s, t)
    decreases |es|
  {
    if |es| > 0 {
      var e := es[0];
      var s1 := s.(pos := s.pos + |Utf8Encode(e.0 + ": " + e.1 + "\n")|, inner := s.inner[e.0 := e.1]);
      EntryStep(dec, s, es, s1);
      ReadEntries(dec, s1, es[1..], t);
      InnerLeads(dec, s, s1, t);
    } else {
      assert Utf8Encode(Lines(es, "\n")) == [];
      LeadsRefl(HeaderContinues(dec), s);
    }
  }

  /** The written lines of entries, read in the http-header state, store each entry in turn. */
  lemma {:induction false} ReadHttpEntries(dec: seq<Byte> -> Option<string>, s: State, es: Entries, t: State)
    requires DecodesUtf8(dec) && s.Valid() && s.phase == HttpHeader
    requires forall j :: 0 <= j < |es| ==> EntryOk(es[j])
    requires At(s.input(), s.pos, Utf8Encode(Lines(es, "\r\n")))
    requires t == s.(pos := s.pos + |Utf8Encode(Lines(es, "\r\n"))|, http := Fold(s.http, es))
    ensures Leads(HeaderContinues(dec), s, t)
    decreases |es|
  {
    if |es| > 0 {
      var e := es[0];
      var s1 := s.(pos := s.pos + |Utf8Encode(e.0 + ": " + e.1 + "\r\n")|, http := s.http[e.0 := e.1]);
      HttpEntryStep(dec, s, es, s1);
      ReadHttpEntries(dec, s1, es[1..], t);
      HttpLeads(dec, s, s1, t);
    } else {
      assert Utf8Encode(Lines(es, "\r\n")) == [];
      LeadsRefl(HeaderContinues(dec), s);
    }
  }

  // ---------------------------------------------------------------------
  // The sections of a record, as the decoder sees them
  // ---------------------------------------------------------------------

  /** The URL line, the header lines and the blank line ending them. */
  function HeadBytes(url: string, be: Entries): seq<Byte>
  {
    Utf8Encode(url) + [10] + Utf8Encode(Lines(be, "\n")) + [10]
  }

  /** The http lines and the CRLF ending them. */
  function HttpBytes(he: Entries): seq<Byte>
  {
    Utf8Encode(Lines(he, "\r\n")) + [13, 10]
  }

  function Fields(url: string, be: Entries, he: Entries, data: Option<seq<Byte>>): seq<Byte>
  {
    HeadBytes(url, be) + HttpBytes(he) + DataSection(data)
  }

  /** The state `_reset` leaves at a position, with no URL held. */
  function Fresh(input: seq<Byte>, pos: nat): (s: State)
    ensures s.phase == InnerHeader && s.inner == map[] && s.urlLatest.None?
  {
    State(Source(input), pos, None, None, map[], map[], None, InnerHeader)
  }

  lemma {:induction false} Utf8Crlf()
    ensures Utf8Encode("\r\n") == [13, 10]
    ensures Utf8Encode("\r\n\r\n") == [13, 10, 13, 10]
  {
    Utf8AsciiText("\r\n");
    Utf8AsciiText("\r\n\r\n");
  }

  /** The http section `dumps` writes is the lines of the http entries and a CRLF. */
  lemma {:induction false} HttpSectionBytes(http: Option<seq<(string, string)>>)
    ensures HttpSection(http) == HttpBytes(HttpEntries(http))
  {
    Utf8Crlf();
    var he := HttpEntries(http);
    if http.None? || |http.value| == 0 {
      assert Lines(he, "\r\n") == "";
      assert Utf8Encode("") == [];
    } else {
      var h := HttpHeaderStr(http).value;
      HttpText(http.value);
      var l := Lines(he, "\r\n");
      assert |l| > 0;
      assert |h| > 0;
      Utf8Append(h, "\r\n\r\n");
      Utf8Append(l, "\r\n");
    }
  }

  /** The header section of a record with at least one header line is its entries' lines and a blank line. */
  lemma {:induction false} BlockSectionBytes(keys: seq<string>, ih: map<string, Value>)
    requires |HeaderBlock(keys, ih)| > 0
    ensures BlockSection(HeaderBlock(keys, ih)) == Utf8Encode(Lines(BlockEntries(keys, ih), "\n")) + [10]
  {
    BlockLines(keys, ih);
  }

  /** A record's layout, in the decoder's sections. */
  lemma {:induction false} LayoutFields(keys: seq<string>, rec: Record)
    requires |HeaderBlock(keys, rec.inner)| > 0
    ensures Layout(keys, rec) == Fields(rec.url, BlockEntries(keys, rec.inner), HttpEntries(rec.http), rec.data)
  {
    var u := Utf8Encode(rec.url) + [10];
    var bl := Utf8Encode(Lines(BlockEntries(keys, rec.inner), "\n"));
    BlockSectionBytes(keys, rec.inner);
    HttpSectionBytes(rec.http);
    AppendAssoc(u, bl, [10]);
  }

  // ---------------------------------------------------------------------
  // Reading the sections
  // ---------------------------------------------------------------------

  /** The URL line and header lines read from a fresh state leave the decoder in the http header. */
  lemma {:induction false} ReadHead(dec: seq<Byte> -> Option<string>, input: seq<Byte>, pos: nat, url: string, be: Entries, t: State)
    requires DecodesUtf8(dec)
    requires SimpleCheckUrl(url) && IsStripped(url) && '\n' !in url && |url| <= 1024
    requires forall j :: 0 <= j < |be| ==> ShortEntry(be[j])
    requires Fold(map[], be) != map[]
    requires At(input, pos, HeadBytes(url, be))
    requires t == State(Source(input), pos + |HeadBytes(url, be)|, Some(url), None, Fold(map[], be), map[], None, HttpHeader)
    ensures Leads(HeaderContinues(dec), Fresh(input, pos), t)
  {
    var u, l := Utf8Encode(url) + [10], Utf8Encode(Lines(be, "\n")) + [10];
    assert At(input, pos, u) && At(input, pos + |u|, l) by {
      AppendAssoc(u, Utf8Encode(Lines(be, "\n")), [10]);
      AtSplit(input, pos, u, l);
    }
    var s0 := Fresh(input, pos);
    var s1 := State(Source(input), pos + |u|, Some(url), None, map[], map[], None, InnerHeader);
    assert InnerHeaderStep(dec, s0) == Continue(s1) by {
      ReadUrlLine(dec, s0, url);
      assert ResetState(s0).(pos := s0.pos + |Utf8Encode(url)| + 1, url := Some(url)) == s1;
    }
    assert |HeadBytes(url, be)| == |u| + |Utf8Encode(Lines(be, "\n"))| + 1;
    assert Fold(s1.inner, be) != map[];
    assert t == s1.(pos := s1.pos + |Utf8Encode(Lines(be, "\n"))| + 1, inner := Fold(s1.inner, be), phase := HttpHeader);
    ReadHeaderLines(dec, s1, be, t);
    InnerLeads(dec, s0, s1, t);
  }

  /** The header lines and the blank line after them store each entry and move the decoder on to the http header. */
  lemma {:induction false} ReadHeaderLines(dec: seq<Byte> -> Option<string>, s: State, be: Entries, t: State)
    requires DecodesUtf8(dec) && s.Valid() && s.phase == InnerHeader && Truthy(s.url)
    requires forall j :: 0 <= j < |be| ==> ShortEntry(be[j])
    requires Fold(s.inner, be) != map[]
    requires At(s.input(), s.pos, Utf8Encode(Lines(be, "\n")) + [10])
    requires t == s.(pos := s.pos + |Utf8Encode(Lines(be, "\n"))| + 1, inner := Fold(s.inner, be), phase := HttpHeader)
    ensures Leads(HeaderContinues(dec), s, t)
  {
    var l := Utf8Encode(Lines(be, "\n"));
    var s1 := s.(pos := s.pos + |l|, inner := Fold(s.inner, be));
    assert At(s.input(), s.pos, l) && At(s1.input(), s1.pos, [10]) by {
      AtSplit(s.input(), s.pos, l, [10]);
    }
    ReadEntries(dec, s, be, s1);
    assert InnerHeaderStep(dec, s1) == Continue(t) by {
      ReadBlankInner(dec, s1);
      assert s1.(pos := s1.pos + 1, phase := HttpHeader) == t;
    }
    LeadsRefl(HeaderContinues(dec), t);
    InnerLeads(dec, s1, t, t);
    LeadsTrans(HeaderContinues(dec), s, s1, t);
  }

  /** The http lines and their closing CRLF store each http entry and move the decoder on to the payload. */
  lemma {:induction false} ReadHttp(dec: seq<Byte> -> Option<string>, s: State, he: Entries, t: State)
    requires DecodesUtf8(dec) && s.Valid() && s.phase == HttpHeader
    requires forall j :: 0 <= j < |he| ==> EntryOk(he[j])
    requires At(s.input(), s.pos, HttpBytes(he))
    requires t == s.(pos := s.pos + |HttpBytes(he)|, http := Fold(s.http, he), phase := Data)
    ensures Leads(HeaderContinues(dec), s, t)
  {
    var l := Utf8Encode(Lines(he, "\r\n"));
    var s1 := s.(pos := s.pos + |l|, http := Fold(s.http, he));
    assert At(s.input(), s.pos, l) && At(s1.input(), s1.pos, [13, 10]) by {
      AtSplit(s.input(), s.pos, l, [13, 10]);
    }
    ReadHttpEntries(dec, s, he, s1);
    assert HttpHeaderStep(dec, s1) == Continue(t) by {
      ReadBlankHttp(dec, s1);
      assert s1.(pos := s1.pos + 2, phase := Data) == t;
    }
    LeadsRefl(HeaderContinues(dec), t);
    HttpLeads(dec, s1, t, t);
    LeadsTrans(HeaderContinues(dec), s, s1, t);
  }

  /** `_read_data` with a Store-Size it can read in full: the payload is exactly the stored bytes. */
  lemma {:induction false} ReadPayload(s: State, d: seq<Byte>)
    requires s.Valid() && s.urlLatest.None? && StoreSize(s.inner) == Ok(|d|)
    requires At(s.input(), s.pos, d)
    requires !(s.http == map[] && |d| >= 2 && d[..2] == [13, 10])
    ensures DataStep(s) == Emit(Generate(s.(pos := s.pos + |d|, data := Some(d))), s.(pos := s.pos + |d|, data := Some(d)))
  {
  }

  /** `_read_data` without a Store-Size: the record has no payload and nothing is read. */
  lemma {:induction false} NoPayload(s: State)
    requires s.Valid() && StoreSize(s.inner) == Ok(-1)
    ensures DataStep(s) == Emit(Generate(s), s)
  {
  }

  lemma {:induction false} EmitNext(dec: seq<Byte> -> Option<string>, s: State, r: SpageRecord, t: State)
    requires s.Valid() && s.phase == Data && DataStep(s) == Emit(r, t)
    ensures Next(dec, s) == Emitted(r, t)
  {
  }

  /** The URL line, the header lines and the http lines read from a fresh state leave `_read()` at the payload. */
  lemma {:induction false} ReadToData(dec: seq<Byte> -> Option<string>, input: seq<Byte>, pos: nat, url: string, be: Entries, he: Entries, s2: State)
    requires DecodesUtf8(dec)
    requires SimpleCheckUrl(url) && IsStripped(url) && '\n' !in url && |url| <= 1024
    requires forall j :: 0 <= j < |be| ==> ShortEntry(be[j])
    requires forall j :: 0 <= j < |he| ==> EntryOk(he[j])
    requires Fold(map[], be) != map[]
    requires At(input, pos, HeadBytes(url, be) + HttpBytes(he))
    requires s2 == State(Source(input), pos + |HeadBytes(url, be)| + |HttpBytes(he)|, Some(url), None, Fold(map[], be), Fold(map[], he), None, Data)
    ensures s2.Valid() && Next(dec, Fresh(input, pos)) == Next(dec, s2)
  {
    var hb := HeadBytes(url, be);
    var s1 := State(Source(input), pos + |hb|, Some(url), None, Fold(map[], be), map[], None, HttpHeader);
    assert At(input, pos, hb) && At(input, pos + |hb|, HttpBytes(he)) by {
      AtSplit(input, pos, hb, HttpBytes(he));
    }
    ReadHead(dec, input, pos, url, be, s1);
    assert s2 == s1.(pos := s1.pos + |HttpBytes(he)|, http := Fold(s1.http, he), phase := Data);
    ReadHttp(dec, s1, he, s2);
    LeadsTrans(HeaderContinues(dec), Fresh(input, pos), s1, s2);
    LeadsNext(dec, Fresh(input, pos), s2);
  }

  /**
   * The sections of one record read from a fresh state: `_read()` yields
   * the URL, the map of the header lines, the map of the http lines and
   * the payload, and its reset leaves a fresh state just after the
   * payload (before the CRLF that ends it).
   */
  lemma {:induction false} ReadFields(dec: seq<Byte> -> Option<string>, input: seq<Byte>, pos: nat, url: string, be: Entries, he: Entries, data: Option<seq<Byte>>)
    requires DecodesUtf8(dec)
    requires SimpleCheckUrl(url) && IsStripped(url) && '\n' !in url && |url| <= 1024
    requires forall j :: 0 <= j < |be| ==> ShortEntry(be[j])
    requires forall j :: 0 <= j < |he| ==> EntryOk(he[j])
    requires Fold(map[], be) != map[]
    requires StoreSize(Fold(map[], be)) == if data.Some? then Ok(|data.value|) else Ok(-1)
    requires data.Some? && Fold(map[], he) == map[] ==> |data.value| < 2 || data.value[..2] != [13, 10]
    requires At(input, pos, Fields(url, be, he, data))
    ensures var o := Next(dec, Fresh(input, pos));
      o.Emitted? && o.rec == SpageRecord(Some(url), Fold(map[], be), Fold(map[], he), data) &&
      ResetState(o.next) == Fresh(input, pos + |HeadBytes(url, be)| + |HttpBytes(he)| + if data.Some? then |data.value| else 0)
  {
    var front := HeadBytes(url, be) + HttpBytes(he);
    var s2 := State(Source(input), pos + |front|, Some(url), None, Fold(map[], be), Fold(map[], he), None, Data);
    AtSplit(input, pos, front, DataSection(data));
    ReadToData(dec, input, pos, url, be, he, s2);
    ReadData(dec, s2, data);
  }

  /** `_read()` at the payload section: the record with its payload, and a reset just after the payload. */
  lemma {:induction false} ReadData(dec: seq<Byte> -> Option<string>, s: State, data: Option<seq<Byte>>)
    requires s.Valid() && s.phase == Data && s.urlLatest.None? && s.data.None?
    requires StoreSize(s.inner) == if data.Some? then Ok(|data.value|) else Ok(-1)
    requires data.Some? && s.http == map[] ==> |data.value| < 2 || data.value[..2] != [13, 10]
    requires At(s.input(), s.pos, DataSection(data))
    ensures var o := Next(dec, s);
      o.Emitted? && o.rec == SpageRecord(s.url, s.inner, s.http, data) &&
      ResetState(o.next) == Fresh(s.input(), s.pos + if data.Some? then |data.value| else 0)
  {
    if data.Some? {
      var d := data.value;
      assert At(s.input(), s.pos, d) by {
        AtSplit(s.input(), s.pos, d, [13, 10]);
      }
      ReadPayload(s, d);
      var t := s.(pos := s.pos + |d|, data := Some(d));
      EmitNext(dec, s, Generate(t), t);
    } else {
      NoPayload(s);
      EmitNext(dec, s, Generate(s), s);
    }
  }

  // ---------------------------------------------------------------------
  // One record
  // ---------------------------------------------------------------------

  /** A non-empty run of entries builds a non-empty map. */
  lemma {:induction false} FoldNonEmpty(es: Entries)
    requires |es| > 0
    ensures Fold(map[], es) != map[]
  {
    FoldKeys(map[], es);
    assert es[0].0 in EntryKeys(es);
  }

  /** The Store-Size the decoder reads back from a record's header lines. */
  lemma {:induction false} StoreSizeOf(keys: seq<string>, rec: Record)
    requires Encodable(keys, rec)
    ensures StoreSize(InnerMap(keys, rec.inner)) == if rec.data.Some? then Ok(|rec.data.value|) else Ok(-1)
  {
    assert forall i :: 0 <= i < |keys| ==> IsStripped(keys[i]) by {
      assert forall i :: 0 <= i < |keys| ==> KeyOk(keys[i]);
    }
    InnerMapContents(keys, rec.inner);
    if rec.data.Some? {
      var n := |rec.data.value|;
      IntToStringIsStripped(n);
      StripOfStripped(IntToString(n));
      ParseIntToString(n);
    }
  }

  /** The http map is empty exactly when `dumps` writes no http lines. */
  lemma {:induction false} HttpMapEmpty(http: Option<seq<(string, string)>>)
    ensures HttpMap(http) == map[] <==> HttpHeaderStr(http).None?
  {
    if HttpHeaderStr(http).Some? {
      FoldNonEmpty(HttpEntries(http));
    }
  }

  /** The record's sections meet what `ReadFields` asks of them. */
  lemma {:induction false} RecordFields(keys: seq<string>, rec: Record)
    requires Encodable(keys, rec)
    ensures var be, he := BlockEntries(keys, rec.inner), HttpEntries(rec.http);
      (forall j :: 0 <= j < |be| ==> ShortEntry(be[j])) &&
      (forall j :: 0 <= j < |he| ==> EntryOk(he[j])) &&
      Fold(map[], be) == InnerMap(keys, rec.inner) && Fold(map[], be) != map[] &&
      Fold(map[], he) == HttpMap(rec.http) &&
      (HttpMap(rec.http) == map[] <==> HttpHeaderStr(rec.http).None?) &&
      Layout(keys, rec) == Fields(rec.url, be, he, rec.data)
  {
    var be := BlockEntries(keys, rec.inner);
    BlockEntriesOk(keys, rec.inner);
    if rec.http.Some? {
      PairEntriesOk(rec.http.value);
    }
    InnerMapFold(keys, rec.inner);
    BlockLines(keys, rec.inner);
    FoldNonEmpty(be);
    HttpMapEmpty(rec.http);
    LayoutFields(keys, rec);
  }

  /**
   * A written record read from a fresh state: `_read()` yields the record
   * the writer was given (URL, configured header keys with their string
   * values, http pairs, payload), and its reset leaves a fresh state at
   * the end of the record, before the CRLF that follows a payload.
   */
  lemma {:induction false} ReadRecord(dec: seq<Byte> -> Option<string>, keys: seq<string>, rec: Record, input: seq<Byte>, pos: nat)
    requires DecodesUtf8(dec) && Encodable(keys, rec)
    requires At(input, pos, Layout(keys, rec))
    ensures var o := Next(dec, Fresh(input, pos));
      o.Emitted? && o.rec == Expected(keys, rec) &&
      ResetState(o.next) == Fresh(input, pos + |Layout(keys, rec)| - if rec.data.Some? then 2 else 0)
  {
    var be, he := BlockEntries(keys, rec.inner), HttpEntries(rec.http);
    RecordFields(keys, rec);
    StoreSizeOf(keys, rec);
    ReadFields(dec, input, pos, rec.url, be, he, rec.data);
  }


  // ---------------------------------------------------------------------
  // A stream of records
  // ---------------------------------------------------------------------

  /** Byte strings one after the other. */
  function Concat(cs: seq<seq<Byte>>): seq<Byte>
  {
    if |cs| == 0 then [] else cs[0] + Concat(cs[1..])
  }

  /** Where each byte string placed from `pos` starts, and where the last one ends. */
  function Starts(cs: seq<seq<Byte>>, pos: nat): (ps: seq<nat>)
    ensures |ps| == |cs| + 1 && ps[0] == pos
  {
    if |cs| == 0 then [pos] else [pos] + Starts(cs[1..], pos + |cs[0]|)
  }

  /** The bytes of each record the writer writes. */
  function Layouts(keys: seq<string>, recs: seq<Record>): (cs: seq<seq<Byte>>)
    ensures |cs| == |recs|
  {
    seq(|recs|, i requires 0 <= i < |recs| => Layout(keys, recs[i]))
  }

  /** The bytes of records written one after the other. */
  function Written(keys: seq<string>, recs: seq<Record>): seq<Byte>
  {
    Concat(Layouts(keys, recs))
  }

  /** The records the decoder yields for records written one after the other. */
  function ExpectedAll(keys: seq<string>, recs: seq<Record>): (out: seq<SpageRecord>)
    ensures |out| == |recs|
  {
    seq(|recs|, i requires 0 <= i < |recs| => Expected(keys, recs[i]))
  }

  /** The byte strings placed from `pos` are found at their starts, each start following the one before. */
  lemma {:induction false} Placed(cs: seq<seq<Byte>>, input: seq<Byte>, pos: nat)
    requires At(input, pos, Concat(cs))
    ensures forall i :: 0 <= i < |cs| ==> At(input, Starts(cs, pos)[i], cs[i])
    ensures forall i :: 0 <= i < |cs| ==> Starts(cs, pos)[i + 1] == Starts(cs, pos)[i] + |cs[i]|
    ensures Starts(cs, pos)[|cs|] == pos + |Concat(cs)|
    decreases |cs|
  {
    if |cs| > 0 {
      var rest := cs[1..];
      var next := pos + |cs[0]|;
      assert At(input, pos, cs[0]) && At(input, next, Concat(rest)) by {
        AtSplit(input, pos, cs[0], Concat(rest));
      }
      Placed(rest, input, next);
      var ps, qs := Starts(cs, pos), Starts(rest, next);
      assert ps == [pos] + qs;
      forall i | 0 <= i < |cs|
        ensures At(input, ps[i], cs[i]) && ps[i + 1] == ps[i] + |cs[i]|
      {
        if i > 0 {
          assert ps[i] == qs[i - 1] && ps[i + 1] == qs[i] && cs[i] == rest[i - 1];
        }
      }
    }
  }

  /**
   * From position `p`, `_read()` yields `r` and its reset leaves a fresh
   * state at `p2`, or at the CRLF that ends a payload just before `p2`.
   */
  ghost predicate Yields(dec: seq<Byte> -> Option<string>, input: seq<Byte>, p: nat, r: SpageRecord, p2: nat)
  {
    p <= |input| && Ends(input, Next(dec, Fresh(input, p)), r, p2)
  }

  /** `o` yields `r`, and its reset leaves a fresh state at `p2` or at the CRLF just before `p2`. */
  ghost predicate Ends(input: seq<Byte>, o: Outcome, r: SpageRecord, p2: nat)
  {
    o.Emitted? && o.rec == r && p2 <= |input| &&
    (ResetState(o.next) == Fresh(input, p2) ||
     (2 <= p2 && ResetState(o.next) == Fresh(input, p2 - 2) && At(input, p2 - 2, [13, 10])))
  }

  /** A record with a payload ends with the CRLF written after the payload. */
  lemma {:induction false} LayoutEndsWithCrlf(keys: seq<string>, rec: Record)
    requires rec.data.Some?
    ensures |Layout(keys, rec)| >= 2 && Layout(keys, rec)[|Layout(keys, rec)| - 2..] == [13, 10]
  {
    var front := Utf8Encode(rec.url) + [10] + BlockSection(HeaderBlock(keys, rec.inner)) + HttpSection(rec.http);
    AppendAssoc(front, rec.data.value, [13, 10]);
  }

  /** Bytes ending with a CRLF, found at `p`: the CRLF is found just before their end. */
  lemma {:induction false} AtCrlfEnd(input: seq<Byte>, p: nat, c: seq<Byte>)
    requires At(input, p, c) && |c| >= 2 && c[|c| - 2..] == [13, 10]
    ensures At(input, p + |c| - 2, [13, 10])
  {
    assert c == c[..|c| - 2] + [13, 10];
    AtSplit(input, p, c[..|c| - 2], [13, 10]);
  }

  /** A record `_read()` yields with its reset at `q`, where the next record starts at `q` or after a CRLF at `q`. */
  lemma {:induction false} ToYields(dec: seq<Byte> -> Option<string>, input: seq<Byte>, p: nat, r: SpageRecord, q: nat, p2: nat)
    requires p <= |input| && q <= |input| && p2 <= |input|
    requires var o := Next(dec, Fresh(input, p)); o.Emitted? && o.rec == r && ResetState(o.next) == Fresh(input, q)
    requires p2 == q || (p2 == q + 2 && At(input, q, [13, 10]))
    ensures Yields(dec, input, p, r, p2)
  {
  }

  /** At the end of the input `read` yields nothing more. */
  lemma {:induction false} ReadEnd(dec: seq<Byte> -> Option<string>, input: seq<Byte>)
    ensures DecodeAll(dec, Fresh(input, |input|)) == Decoded([], None)
  {
    assert Next(dec, Fresh(input, |input|)) == Ended;
  }

  /** The CRLF after a payload, met with no header read yet, is skipped. */
  lemma {:induction false} SkipCrlf(dec: seq<Byte> -> Option<string>, input: seq<Byte>, q: nat)
    requires DecodesUtf8(dec) && At(input, q, [13, 10])
    ensures DecodeAll(dec, Fresh(input, q)) == DecodeAll(dec, Fresh(input, q + 2))
  {
    SkipBlankInner(dec, Fresh(input, q));
    NextContinue(dec, Fresh(input, q), Fresh(input, q + 2));
  }

  /** A record `_read()` yields from a fresh state comes first, then what is read after its reset. */
  lemma {:induction false} DecodeFirst(dec: seq<Byte> -> Option<string>, input: seq<Byte>, pos: nat, r: SpageRecord, q: nat)
    requires pos <= |input| && q <= |input|
    requires var o := Next(dec, Fresh(input, pos)); o.Emitted? && o.rec == r && ResetState(o.next) == Fresh(input, q)
    ensures var rest := DecodeAll(dec, Fresh(input, q));
      DecodeAll(dec, Fresh(input, pos)) == Decoded([r] + rest.records, rest.error)
  {
  }

  /** A record yielded with its reset at the CRLF just before `p2`: the CRLF is skipped. */
  lemma {:induction false} DecodeSkip(dec: seq<Byte> -> Option<string>, input: seq<Byte>, p: nat, r: SpageRecord, p2: nat)
    requires DecodesUtf8(dec) && p <= |input| && 2 <= p2 <= |input|
    requires var o := Next(dec, Fresh(input, p));
      o.Emitted? && o.rec == r && ResetState(o.next) == Fresh(input, p2 - 2) && At(input, p2 - 2, [13, 10])
    ensures var rest := DecodeAll(dec, Fresh(input, p2));
      DecodeAll(dec, Fresh(input, p)) == Decoded([r] + rest.records, rest.error)
  {
    var q := p2 - 2;
    DecodeFirst(dec, input, p, r, q);
    SkipCrlf(dec, input, q);
  }

  /** One record yielded, then the records after it: what `read` yields from `p`. */
  lemma {:induction false} DecodeYield(dec: seq<Byte> -> Option<string>, input: seq<Byte>, p: nat, r: SpageRecord, p2: nat)
    requires DecodesUtf8(dec) && Yields(dec, input, p, r, p2)
    ensures var rest := DecodeAll(dec, Fresh(input, p2));
      DecodeAll(dec, Fresh(input, p)) == Decoded([r] + rest.records, rest.error)
  {
    if ResetState(Next(dec, Fresh(input, p)).next) == Fresh(input, p2) {
      DecodeFirst(dec, input, p, r, p2);
    } else {
      DecodeSkip(dec, input, p, r, p2);
    }
  }

  /** Records yielded one after another, up to the end of the input: what `read` yields, with no error. */
  lemma {:induction false} DecodeYields(dec: seq<Byte> -> Option<string>, input: seq<Byte>, ps: seq<nat>, outs: seq<SpageRecord>)
    requires DecodesUtf8(dec) && |ps| == |outs| + 1 && ps[|outs|] == |input|
    requires forall i :: 0 <= i < |outs| ==> Yields(dec, input, ps[i], outs[i], ps[i + 1])
    ensures ps[0] <= |input| && DecodeAll(dec, Fresh(input, ps[0])) == Decoded(outs, None)
    decreases |outs|
  {
    if |outs| == 0 {
      ReadEnd(dec, input);
    } else {
      assert forall i :: 0 <= i < |outs[1..]| ==> Yields(dec, input, ps[1..][i], outs[1..][i], ps[1..][i + 1]) by {
        forall i | 0 <= i < |outs[1..]|
          ensures Yields(dec, input, ps[1..][i], outs[1..][i], ps[1..][i + 1])
        {
          assert Yields(dec, input, ps[i + 1], outs[i + 1], ps[i + 2]);
        }
      }
      DecodeYields(dec, input, ps[1..], outs[1..]);
      assert Yields(dec, input, ps[0], outs[0], ps[1]);
      DecodeYield(dec, input, ps[0], outs[0], ps[1]);
      assert outs == [outs[0]] + outs[1..];
    }
  }

  /** Each written record, found at its start, yields the record the writer was given. */
  lemma {:induction false} WrittenYields(dec: seq<Byte> -> Option<string>, keys: seq<string>, recs: seq<Record>)
    requires DecodesUtf8(dec)
    requires forall i :: 0 <= i < |recs| ==> Encodable(keys, recs[i])
    ensures var cs := Layouts(keys, recs); var ps := Starts(cs, 0);
      ps[|recs|] == |Written(keys, recs)| &&
      forall i :: 0 <= i < |recs| ==> Yields(dec, Written(keys, recs), ps[i], ExpectedAll(keys, recs)[i], ps[i + 1])
  {
    var input, cs := Written(keys, recs), Layouts(keys, recs);
    var ps := Starts(cs, 0);
    assert At(input, 0, Concat(cs));
    Placed(cs, input, 0);
    forall i | 0 <= i < |recs|
      ensures Yields(dec, input, ps[i], ExpectedAll(keys, recs)[i], ps[i + 1])
    {
      assert Encodable(keys, recs[i]);
      ReadRecordAt(dec, keys, recs[i], cs[i], ExpectedAll(keys, recs)[i], input, ps[i], ps[i + 1]);
    }
  }

  /** `ReadRecord`, with the record's bytes, its record read back and its end given by name. */
  lemma {:induction false} ReadRecordAt(dec: seq<Byte> -> Option<string>, keys: seq<string>, rec: Record, c: seq<Byte>, r: SpageRecord, input: seq<Byte>, p: nat, p2: nat)
    requires DecodesUtf8(dec) && Encodable(keys, rec)
    requires c == Layout(keys, rec) && r == Expected(keys, rec)
    requires At(input, p, c) && p2 == p + |c|
    ensures Yields(dec, input, p, r, p2)
  {
    var q := p + |c| - if rec.data.Some? then 2 else 0;
    assert p2 == q || (p2 == q + 2 && At(input, q, [13, 10])) by {
      if rec.data.Some? {
        LayoutEndsWithCrlf(keys, rec);
        AtCrlfEnd(input, p, c);
      }
    }
    assert var o := Next(dec, Fresh(input, p)); o.Emitted? && o.rec == r && ResetState(o.next) == Fresh(input, q) by {
      ReadRecord(dec, keys, rec, input, p);
    }
    ToYields(dec, input, p, r, q, p2);
  }

  /**
   * The round trip: the records written one after the other into a stream
   * are read back by the decoder, in order, each as the record the writer
   * was given, and the sequence ends without an error.
   */
  lemma {:induction false} ReadStream(dec: seq<Byte> -> Option<string>, keys: seq<string>, recs: seq<Record>)
    requires DecodesUtf8(dec)
    requires forall i :: 0 <= i < |recs| ==> Encodable(keys, recs[i])
    ensures DecodeAll(dec, Start(Written(keys, recs))) == Decoded(ExpectedAll(keys, recs), None)
  {
    WrittenYields(dec, keys, recs);
    DecodeYields(dec, Written(keys, recs), Starts(Layouts(keys, recs), 0), ExpectedAll(keys, recs));
  }

  /**
   * One `write` call read back: when the writer accepts its arguments, the
   * bytes it appends decode to exactly one record, the one the writer
   * processed, and the stream then ends without an error.
   */
  lemma {:induction false} WriteReadsBack(dec: seq<Byte> -> Option<string>, w: RecordWriter, url: string,
                                          inner: Option<map<string, Value>>, http: Option<seq<(string, string)>>,
                                          data: DataArg)
    requires DecodesUtf8(dec) && Encoded(w, url, inner, http, data).Ok?
    requires var rec := WriteArgs(url, inner, http, if data.Bytes? then data.bytes else [], data.Bytes?);
      Processed(w.processor, rec).Ok? && Encodable(w.keys, Processed(w.processor, rec).value)
    ensures var rec := WriteArgs(url, inner, http, if data.Bytes? then data.bytes else [], data.Bytes?);
      DecodeAll(dec, Start(Encoded(w, url, inner, http, data).value)) ==
        Decoded([Expected(w.keys, Processed(w.processor, rec).value)], None)
  {
    var rec := WriteArgs(url, inner, http, if data.Bytes? then data.bytes else [], data.Bytes?);
    var pr := Processed(w.processor, rec).value;
    ReadStream(dec, w.keys, [pr]);
    assert Layouts(w.keys, [pr]) == [Layout(w.keys, pr)];
    assert Concat([Layout(w.keys, pr)]) == Layout(w.keys, pr) + Concat([]);
    assert Written(w.keys, [pr]) == Layout(w.keys, pr);
    assert ExpectedAll(w.keys, [pr]) == [Expected(w.keys, pr)];
  }
}
