/**
 * The format checkers registered with the schema validator, and the
 * default-filling step that runs before each object's properties are checked.
 */
module Validator {
  import opened Basics
  import opened Text
  import opened DefaultSchema

  /** The "url" format: longer than 10 characters and an http:// or https:// prefix. */
  predicate SimpleCheckUrl(url: string)
  {
    |url| > 10 && (StartsWith(url, "http://") || StartsWith(url, "https://"))
  }

  /**
   * A header line `k: v` written by the encoder is never taken for a URL:
   * the first colon of a URL is followed by '/', that of such a line by ' '.
   */
  lemma {:induction false} HeaderLineIsNotUrl(k: string, v: string)
    requires ':' !in k
    ensures !SimpleCheckUrl(k + ": " + v)
  {
    var line := k + ": " + v;
    assert line[|k|] == ':' && line[|k| + 1] == ' ';
    assert !StartsWith(line, "http://") by {
      if |k| >= 5 {
        assert line[4] == k[4];
      } else if |line| >= 7 {
        assert line[|k|] != "http://"[|k|] || line[|k| + 1] != "http://"[|k| + 1];
      }
    }
    assert !StartsWith(line, "https://") by {
      if |k| >= 6 {
        assert line[5] == k[5];
      } else if |line| >= 8 {
        assert line[|k|] != "https://"[|k|] || line[|k| + 1] != "https://"[|k| + 1];
      }
    }
  }

  /** The examples of the validator tests. */
  lemma {:induction false} SimpleCheckUrlExamples()
    ensures SimpleCheckUrl("http://www.google.com/")
    ensures SimpleCheckUrl("https://www.google.com/")
    ensures !SimpleCheckUrl("htp://www.google.com/")
    ensures !SimpleCheckUrl("https/www.google.com/")
    ensures !SimpleCheckUrl("http://a.b")
  {
    assert "http://www.google.com/"[..7] == "http://";
    assert "https://www.google.com/"[..8] == "https://";
    assert "htp://www.google.com/"[..7][2] != "http://"[2];
    assert "htp://www.google.com/"[..8][2] != "https://"[2];
    assert "https/www.google.com/"[..7][4] != "http://"[4];
    assert "https/www.google.com/"[..8][5] != "https://"[5];
  }

  // ---------------------------------------------------------------------
  // Error-Reason
  // ---------------------------------------------------------------------

  const ERROR_TYPES: set<string> := {"HTTP", "SSL", "RULE", "SERVER", "DNS"}

  /** An optional sign followed by one or more decimal digits. */
  predicate IsSignedInt(t: string)
  {
    |t| > 0 &&
    if t[0] == '-' || t[0] == '+' then |t| > 1 && AllDigits(t[1..]) else AllDigits(t)
  }

  /**
   * `check_error_reason` as its tests expect it: `split(' ')` gives exactly
   * two tokens, a known category and a signed integer.
   */
  predicate CheckErrorReason(err: string)
  {
    var c := Split(err, ' ');
    |c| == 2 && c[0] in ERROR_TYPES && IsSignedInt(c[1])
  }

  /**
   * `check_error_reason` as written: its last step calls `sidigit`, which
   * str does not have, so it raises once the first two tests pass.
   */
  function CheckErrorReasonAsWritten(err: string): (r: Result<bool>)
    ensures r.Ok? ==> !r.value
  {
    var c := Split(err, ' ');
    if |c| != 2 then Ok(false)
    else if c[0] !in ERROR_TYPES then Ok(false)
    else Err(AttributeError("sidigit"))
  }

  lemma {:induction false} SplitJoin<T>(s: seq<T>, sep: T)
    ensures Join(Split(s, sep), [sep]) == s
  {
    if |s| > 0 {
      SplitJoin(s[1..], sep);
      var rest := Split(s[1..], sep);
      if s[0] != sep {
        if |rest| > 1 {
          assert Join(rest, [sep]) == rest[0] + [sep] + Join(rest[1..], [sep]);
        }
      }
    }
  }

  lemma {:induction false} SplitNoSep<T>(a: seq<T>, sep: T)
    requires sep !in a
    ensures Split(a, sep) == [a]
  {
    if |a| > 0 {
      SplitNoSep(a[1..], sep);
      assert [a[0]] + a[1..] == a;
    }
  }

  lemma {:induction false} SplitTwo<T>(a: seq<T>, sep: T, b: seq<T>)
    requires sep !in a && sep !in b
    ensures Split(a + [sep] + b, sep) == [a, b]
  {
    if |a| == 0 {
      assert a + [sep] + b == [sep] + b;
      assert ([sep] + b)[1..] == b;
      SplitNoSep(b, sep);
    } else {
      assert (a + [sep] + b)[1..] == a[1..] + [sep] + b;
      SplitTwo(a[1..], sep, b);
      assert [a[0]] + a[1..] == a;
    }
  }

  /** A valid reason is exactly `<category> <signed integer>` with one space. */
  lemma {:induction false} ErrorReasonShape(err: string)
    ensures CheckErrorReason(err) <==>
      exists cat, num :: err == cat + " " + num && cat in ERROR_TYPES && IsSignedInt(num)
  {
    var c := Split(err, ' ');
    if CheckErrorReason(err) {
      SplitJoin(err, ' ');
      assert Join(c, [' ']) == c[0] + [' '] + Join(c[1..], [' ']);
      assert err == c[0] + " " + c[1];
    }
    if exists cat, num :: err == cat + " " + num && cat in ERROR_TYPES && IsSignedInt(num) {
      var cat, num :| err == cat + " " + num && cat in ERROR_TYPES && IsSignedInt(num);
      assert ' ' !in cat;
      SignedIntHasNoSpace(num);
      SplitTwo(cat, ' ', num);
    }
  }

  lemma {:induction false} SignedIntHasNoSpace(t: string)
    requires IsSignedInt(t)
    ensures ' ' !in t
  {
    forall k | 0 <= k < |t| ensures t[k] != ' ' {
      if k > 0 && (t[0] == '-' || t[0] == '+') {
        assert t[1..][k - 1] == t[k];
      }
    }
  }

  /** Every reason the tests call valid makes the written checker raise. */
  lemma {:induction false} AsWrittenRaisesOnValidReasons(err: string)
    requires CheckErrorReason(err)
    ensures CheckErrorReasonAsWritten(err) == Err(AttributeError("sidigit"))
  {
  }

  /** A two-token reason is valid exactly when its tokens are a category and a signed integer. */
  lemma {:induction false} ErrorReasonOfTokens(cat: string, num: string)
    requires ' ' !in cat && ' ' !in num
    ensures CheckErrorReason(cat + " " + num) <==> cat in ERROR_TYPES && IsSignedInt(num)
  {
    assert cat + " " + num == cat + [' '] + num;
    SplitTwo(cat, ' ', num);
  }

  /** The first valid example of the validator tests: `HTTP 404` passes. */
  lemma {:induction false} ErrorReasonHttpExample()
    ensures CheckErrorReason("HTTP 404")
  {
    assert "HTTP" + " " + "404" == "HTTP 404";
    assert "HTTP" in ERROR_TYPES && IsSignedInt("404");
    ErrorReasonOfTokens("HTTP", "404");
  }

  /** The valid examples of the validator tests with negative codes pass: `DNS -2` and `SSL -2`. */
  lemma {:induction false} ErrorReasonNegativeExamples(err: string)
    requires err in {"DNS -2", "SSL -2"}
    ensures CheckErrorReason(err)
  {
    assert "-2"[1..] == "2" && IsSignedInt("-2");
    if err == "DNS -2" {
      assert err == "DNS" + " " + "-2";
      assert "DNS" in ERROR_TYPES;
      ErrorReasonOfTokens("DNS", "-2");
    } else {
      assert err == "SSL" + " " + "-2";
      assert "SSL" in ERROR_TYPES;
      ErrorReasonOfTokens("SSL", "-2");
    }
  }

  /** The longest category of the validator tests: `SERVER 110` passes. */
  lemma {:induction false} ErrorReasonServerExample()
    ensures CheckErrorReason("SERVER 110")
  {
    assert "SERVER" + " " + "110" == "SERVER 110";
    assert "SERVER" in ERROR_TYPES && IsSignedInt("110");
    ErrorReasonOfTokens("SERVER", "110");
  }

  /** An invalid example of the validator tests: no space between the two tokens. */
  lemma {:induction false} ErrorReasonNoSpaceExample()
    ensures !CheckErrorReason("HTTP404")
    ensures CheckErrorReasonAsWritten("HTTP404") == Ok(false)
  {
    SplitNoSep("HTTP404", ' ');
  }

  /** A valid example of the validator tests: `RULE 16` passes. */
  lemma {:induction false} ErrorReasonRuleExample()
    ensures CheckErrorReason("RULE 16")
  {
    assert "RULE" + " " + "16" == "RULE 16";
    assert "RULE" in ERROR_TYPES && IsSignedInt("16");
    ErrorReasonOfTokens("RULE", "16");
  }

  /** An example pair of the validator tests: one space is valid, two spaces make three tokens. */
  lemma {:induction false} ErrorReasonDoubleSpaceExample()
    ensures CheckErrorReason("RULE 16")
    ensures !CheckErrorReason("RULE  16")
  {
    var r, sp, n := "RULE", [' '], "16";
    assert "RULE  16" == r + sp + (sp + n);
    CountAppend(r + sp, sp + n, ' ');
    CountAppend(r, sp, ' ');
    CountAppend(sp, n, ' ');
    CountAbsent(r, ' ');
    ErrorReasonRuleExample();
  }

  /** An invalid example of the validator tests: the code is not a number. */
  lemma {:induction false} ErrorReasonTextCodeExample()
    ensures !CheckErrorReason("RULE TEST")
  {
    ErrorReasonOfTokens("RULE", "TEST");
    assert "RULE" + " " + "TEST" == "RULE TEST";
    assert !IsDigit("TEST"[0]);
  }

  // ---------------------------------------------------------------------
  // Formats
  // ---------------------------------------------------------------------

  /**
   * `check_datetime`: a non-string instance passes; a string passes when it
   * parses in the fixed time format (`parses`, standing for `strptime`).
   */
  function CheckDatetime(v: Value, parses: string -> bool): (ok: bool)
    ensures !v.Str? ==> ok
    ensures v.Str? ==> (ok <==> parses(v.s))
  {
    match v
    case Str(s) => parses(s)
    case _ => true
  }

  /**
   * The format check of a string under a format name: the package's own
   * "url" and "error_reason" checkers, the library checkers ("readable_time"
   * through `strptime`, "ipv4") given as `library`, and acceptance for any
   * name no checker is registered under.
   */
  function FormatCheck(format: string, s: string, library: (string, string) -> bool): Result<bool>
  {
    if format == "url" then Ok(SimpleCheckUrl(s))
    else if format == "error_reason" then
      (match CheckErrorReasonAsWritten(s) case Ok(b) => Ok(b) case Err(e) => Err(e))
    else if format == "readable_time" || format == "ipv4" then Ok(library(format, s))
    else Ok(true)
  }

  /**
   * The Error-Reason field names its format "error_reaseon", under which no
   * checker is registered: any string passes, and the registered
   * "error_reason" checker never runs through the schema.
   */
  lemma {:induction false} ErrorReasonFieldUnchecked(s: string, library: (string, string) -> bool)
    ensures InnerHeaderFields[13].key == ERROR_REASON
    ensures FormatCheck(InnerHeaderFields[13].format.value, s, library) == Ok(true)
  {
    var f := InnerHeaderFields[13].format.value;
    assert f[10] != "error_reason"[10];
    assert f != "error_reason" && f != "url" && f != "readable_time" && f != "ipv4";
  }

  // ---------------------------------------------------------------------
  // Default filling
  // ---------------------------------------------------------------------

  /** A schema `properties` table is a dictionary: no key appears twice. */
  predicate DistinctKeys(props: seq<Field>)
  {
    forall i, j :: 0 <= i < j < |props| ==> props[i].key != props[j].key
  }

  /** The value a default provides; `now` is what `datetime.now()` returns. */
  function DefaultValue(d: Default, now: string): Value
  {
    match d
    case Literal(t) => Str(t)
    case CurrentTime => Time(now)
    case NoDefault => Null
  }

  /** The keys of the properties that declare a default. */
  function DefaultedKeys(props: seq<Field>): set<string>
  {
    set i | 0 <= i < |props| && !props[i].default.NoDefault? :: props[i].key
  }

  lemma {:induction false} FieldInDistinct(props: seq<Field>, i: nat)
    requires DistinctKeys(props) && i < |props|
    ensures FieldIn(props, props[i].key) == Some(props[i])
  {
    if i > 0 {
      FieldInDistinct(props[1..], i - 1);
    }
  }

  /**
   * The instance after default filling, stated key by key: the instance's
   * own entries, and for each other key with a declared default, that default.
   */
  function WithDefaults(props: seq<Field>, instance: map<string, Value>, now: string): (r: map<string, Value>)
    requires DistinctKeys(props)
  {
    map k | k in instance.Keys + DefaultedKeys(props) ::
      if k in instance then instance[k] else DefaultValue(FieldIn(props, k).value.default, now)
  }

  /**
   * `set_defaults`: each property with a default that is missing from the
   * instance gets it (a callable default is called); keys already present
   * keep their value, even None; no other key is added.
   */
  method SetDefaults(props: seq<Field>, instance: map<string, Value>, now: string)
    returns (r: map<string, Value>)
    requires DistinctKeys(props)
    ensures r.Keys == instance.Keys + DefaultedKeys(props)
    ensures forall k :: k in instance ==> r[k] == instance[k]
    ensures forall i :: 0 <= i < |props| && !props[i].default.NoDefault? && props[i].key !in instance ==>
      r[props[i].key] == DefaultValue(props[i].default, now)
    ensures r == WithDefaults(props, instance, now)
  {
    r := instance;
    var i := 0;
    while i < |props|
      invariant 0 <= i <= |props|
      invariant r.Keys == instance.Keys + DefaultedKeys(props[..i])
      invariant forall k :: k in instance ==> r[k] == instance[k]
      invariant forall j :: 0 <= j < i && !props[j].default.NoDefault? && props[j].key !in instance ==>
        r[props[j].key] == DefaultValue(props[j].default, now)
      invariant forall j :: i <= j < |props| && props[j].key in r ==> props[j].key in instance
    {
      var f := props[i];
      if !f.default.NoDefault? {
        var o := DefaultValue(f.default, now);
        if f.key !in r {
          r := r[f.key := o];
        }
      }
      DefaultedKeysStep(props, i);
      i := i + 1;
    }
    assert props[..i] == props;
    FilledIsWithDefaults(props, instance, now, r);
  }

  lemma {:induction false} DefaultedKeysStep(props: seq<Field>, i: nat)
    requires i < |props|
    ensures DefaultedKeys(props[..i + 1]) ==
      DefaultedKeys(props[..i]) + (if props[i].default.NoDefault? then {} else {props[i].key})
  {
    assert forall j :: 0 <= j < i ==> props[..i + 1][j] == props[..i][j];
  }

  /** A filled instance, described key by key, is `WithDefaults`. */
  lemma {:induction false} FilledIsWithDefaults(props: seq<Field>, instance: map<string, Value>, now: string, r: map<string, Value>)
    requires DistinctKeys(props)
    requires r.Keys == instance.Keys + DefaultedKeys(props)
    requires forall k :: k in instance ==> r[k] == instance[k]
    requires forall i :: 0 <= i < |props| && !props[i].default.NoDefault? && props[i].key !in instance ==>
      r[props[i].key] == DefaultValue(props[i].default, now)
    ensures r == WithDefaults(props, instance, now)
  {
    forall k | k in r && k !in instance
      ensures r[k] == DefaultValue(FieldIn(props, k).value.default, now)
    {
      var j :| 0 <= j < |props| && !props[j].default.NoDefault? && props[j].key == k;
      FieldInDistinct(props, j);
    }
  }

  /** The inner-header table is a dictionary: its keys are distinct. */
  lemma {:induction false} SchemaKeysDistinct()
    ensures DistinctKeys(InnerHeaderFields)
  {
    KeyOrder();
  }
}
