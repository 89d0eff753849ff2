/** The field-filling step shared by `SafeFormatter.format` and
    `ColoredFormatter.format` in src/core/logger.py: every `%(name)s` field of the
    format string, and every context variable, is made present on the log record
    before Python's `logging.Formatter` renders it. A record is modelled as its
    attribute map. */
module LogFormat {
  import LoggerContext

  type Record = map<string, string>

  /** A character of the regular-expression class `\w` (ASCII part). */
  predicate IsWordChar(c: char) {
    ('a' <= c <= 'z') || ('A' <= c <= 'Z') || ('0' <= c <= '9') || c == '_'
  }

  predicate IsWord(w: string) {
    |w| > 0 && forall i :: 0 <= i < |w| ==> IsWordChar(w[i])
  }

  /** The `%(name)s` placeholder for `name`. */
  function Placeholder(name: string): string {
    "%(" + name + ")s"
  }

  predicate OccursAt(s: string, p: string, i: nat) {
    i + |p| <= |s| && s[i..i + |p|] == p
  }

  /** The length of the longest run of word characters at the start of `s`
      (what the greedy `\w+` consumes). */
  function WordRun(s: string): (n: nat)
    ensures n <= |s|
    ensures forall i :: 0 <= i < n ==> IsWordChar(s[i])
    ensures n < |s| ==> !IsWordChar(s[n])
  {
    if |s| == 0 || !IsWordChar(s[0]) then 0 else 1 + WordRun(s[1..])
  }

  /** `re.findall(r'%\((\w+)\)s', fmt)`: scanning left to right, a match at the
      current position contributes its name and scanning resumes after it;
      otherwise scanning moves on by one character. */
  function Fields(fmt: string): (r: seq<string>)
    ensures 5 * |r| <= |fmt|
    decreases |fmt|
  {
    if |fmt| < 2 then []
    else if fmt[0] == '%' && fmt[1] == '(' then
      var n := WordRun(fmt[2..]);
      if n > 0 && 4 + n <= |fmt| && fmt[2 + n] == ')' && fmt[3 + n] == 's' then
        [fmt[2..2 + n]] + Fields(fmt[4 + n..])
      else Fields(fmt[1..])
    else Fields(fmt[1..])
  }

  /** A placeholder at the front of `fmt` is exactly the match the scanner takes. */
  lemma PlaceholderAtFront(fmt: string, w: string)
    requires IsWord(w) && OccursAt(fmt, Placeholder(w), 0)
    ensures fmt[0] == '%' && fmt[1] == '('
    ensures WordRun(fmt[2..]) == |w|
    ensures fmt[2..2 + |w|] == w && fmt[2 + |w|] == ')' && fmt[3 + |w|] == 's'
  {
    var p := Placeholder(w);
    assert fmt[..|p|] == p;
    assert forall i :: 0 <= i < |p| ==> fmt[i] == p[i];
    var n := WordRun(fmt[2..]);
    assert fmt[2..][|w|] == ')';
  }

  /** An occurrence in a suffix is an occurrence in the whole string. */
  lemma OccursShift(s: string, p: string, k: nat, j: nat)
    requires k <= |s| && OccursAt(s[k..], p, j)
    ensures OccursAt(s, p, k + j)
  {
    assert s[k + j..k + j + |p|] == s[k..][j..j + |p|];
  }

  /** A name that occurs as a placeholder in `fmt`. */
  ghost predicate Written(fmt: string, f: string) {
    exists i :: 0 <= i <= |fmt| && OccursAt(fmt, Placeholder(f), i)
  }

  /** Soundness: every name found is a word that occurs as a placeholder in `fmt`. */
  lemma {:induction false} FieldsSound(fmt: string)
    ensures forall f :: f in Fields(fmt) ==> IsWord(f) && Written(fmt, f)
    decreases |fmt|
  {
    if |fmt| >= 2 {
      if fmt[0] == '%' && fmt[1] == '(' {
        var n := WordRun(fmt[2..]);
        if n > 0 && 4 + n <= |fmt| && fmt[2 + n] == ')' && fmt[3 + n] == 's' {
          var w := fmt[2..2 + n];
          FieldsSound(fmt[4 + n..]);
          WrittenInSuffix(fmt, 4 + n);
          assert fmt[0..|Placeholder(w)|] == Placeholder(w);
          assert OccursAt(fmt, Placeholder(w), 0);
          assert Fields(fmt) == [w] + Fields(fmt[4 + n..]);
          return;
        }
      }
      FieldsSound(fmt[1..]);
      WrittenInSuffix(fmt, 1);
    }
  }

  /** What a suffix writes, the whole string writes. */
  lemma WrittenInSuffix(fmt: string, k: nat)
    requires k <= |fmt|
    ensures forall f :: Written(fmt[k..], f) ==> Written(fmt, f)
  {
    forall f | Written(fmt[k..], f) ensures Written(fmt, f) {
      var j :| 0 <= j <= |fmt[k..]| && OccursAt(fmt[k..], Placeholder(f), j);
      OccursShift(fmt, Placeholder(f), k, j);
    }
  }

  /** Completeness: every placeholder written in `fmt` is found, wherever it is. */
  lemma {:induction false} FieldsComplete(fmt: string, w: string, i: nat)
    requires IsWord(w) && OccursAt(fmt, Placeholder(w), i)
    ensures w in Fields(fmt)
    decreases |fmt|
  {
    var p := Placeholder(w);
    assert |fmt| >= 2;
    if i == 0 {
      PlaceholderAtFront(fmt, w);
      var n := |w|;
      assert Fields(fmt) == [w] + Fields(fmt[4 + n..]);
    } else {
      assert fmt[i] == '%' by { assert fmt[i..i + |p|][0] == p[0]; }
      var k := Skip(fmt);
      if k > 1 {
        NoPercentInMatch(fmt);
      }
      OccursLater(fmt, p, i, k);
      FieldsComplete(fmt[k..], w, i - k);
      FieldsSkip(fmt);
    }
  }

  /** How far the scanner moves from the front of `fmt`: past a whole match, or
      by one character. */
  function Skip(fmt: string): (k: nat)
    requires |fmt| >= 2
    ensures 1 <= k <= |fmt|
  {
    if fmt[0] == '%' && fmt[1] == '(' then
      var n := WordRun(fmt[2..]);
      if n > 0 && 4 + n <= |fmt| && fmt[2 + n] == ')' && fmt[3 + n] == 's' then 4 + n else 1
    else 1
  }

  /** Whatever the scanner skips contributes nothing but, at most, the match's name. */
  lemma FieldsSkip(fmt: string)
    requires |fmt| >= 2
    ensures forall f :: f in Fields(fmt[Skip(fmt)..]) ==> f in Fields(fmt)
  {
  }

  /** A match holds no `%` after its first character. */
  lemma NoPercentInMatch(fmt: string)
    requires |fmt| >= 2 && Skip(fmt) > 1
    ensures forall j :: 1 <= j < Skip(fmt) ==> fmt[j] != '%'
  {
    var n := WordRun(fmt[2..]);
    assert forall j :: 2 <= j < 2 + n ==> fmt[j] == fmt[2..][j - 2];
  }

  /** An occurrence at or after `k` is one in the suffix from `k`. */
  lemma OccursLater(fmt: string, p: string, i: nat, k: nat)
    requires OccursAt(fmt, p, i)
    requires 1 <= k <= i
    ensures OccursAt(fmt[k..], p, i - k)
  {
    assert fmt[k..][i - k..i - k + |p|] == fmt[i..i + |p|];
  }

  /** Literal text, a placeholder, and the rest of a format. */
  function Segment(text: string, name: string, rest: string): string {
    text + Placeholder(name) + rest
  }

  /** The format that `Logger` uses unless configured otherwise:
      `[%(asctime)s] [%(levelname)s | %(name)s] [%(funcName)s] [%(request_id)s] %(message)s`,
      spelled out segment by segment. */
  const DefaultFormat: string :=
    Segment("[", "asctime", Segment("] [", "levelname", Segment(" | ", "name",
      Segment("] [", "funcName", Segment("] [", "request_id", Segment("] ", "message", ""))))))

  /** Text without `%` contributes no field. */
  lemma {:induction false} FieldsSkipPlain(a: string, t: string)
    requires '%' !in a
    ensures Fields(a + t) == Fields(t)
    decreases |a|
  {
    if |a| > 0 {
      assert (a + t)[0] == a[0];
      assert (a + t)[1..] == a[1..] + t;
      FieldsSkipPlain(a[1..], t);
    } else {
      assert a + t == t;
    }
  }

  /** A segment contributes exactly its placeholder's name. */
  lemma FieldsOfSegment(text: string, w: string, rest: string)
    requires '%' !in text && IsWord(w)
    ensures Fields(Segment(text, w, rest)) == [w] + Fields(rest)
  {
    var t := Placeholder(w) + rest;
    assert Segment(text, w, rest) == text + t;
    FieldsSkipPlain(text, t);
    assert t[0..|Placeholder(w)|] == Placeholder(w);
    PlaceholderAtFront(t, w);
    assert t[4 + |w|..] == rest;
  }

  /** Three segments contribute their three names, in order. */
  lemma FieldsOfThreeSegments(t1: string, w1: string, t2: string, w2: string, t3: string, w3: string, rest: string)
    requires '%' !in t1 && '%' !in t2 && '%' !in t3
    requires IsWord(w1) && IsWord(w2) && IsWord(w3)
    ensures Fields(Segment(t1, w1, Segment(t2, w2, Segment(t3, w3, rest)))) == [w1, w2, w3] + Fields(rest)
  {
    var f3 := Segment(t3, w3, rest);
    var f2 := Segment(t2, w2, f3);
    FieldsOfSegment(t3, w3, rest);
    FieldsOfSegment(t2, w2, f3);
    assert Fields(f2) == [w2, w3] + Fields(rest);
    FieldsOfSegment(t1, w1, f2);
  }

  /** Six segments contribute their six names, in order. */
  lemma FieldsOfSixSegments(t1: string, w1: string, t2: string, w2: string, t3: string, w3: string,
                            t4: string, w4: string, t5: string, w5: string, t6: string, w6: string)
    requires '%' !in t1 && '%' !in t2 && '%' !in t3 && '%' !in t4 && '%' !in t5 && '%' !in t6
    requires IsWord(w1) && IsWord(w2) && IsWord(w3) && IsWord(w4) && IsWord(w5) && IsWord(w6)
    ensures Fields(Segment(t1, w1, Segment(t2, w2, Segment(t3, w3, Segment(t4, w4, Segment(t5, w5, Segment(t6, w6, "")))))))
         == [w1, w2, w3, w4, w5, w6]
  {
    var back := Segment(t4, w4, Segment(t5, w5, Segment(t6, w6, "")));
    FieldsOfThreeSegments(t4, w4, t5, w5, t6, w6, "");
    assert Fields("") == [];
    assert Fields(back) == [w4, w5, w6];
    FieldsOfThreeSegments(t1, w1, t2, w2, t3, w3, back);
  }

  /** The default format's fields, in order. It asks for `request_id`, which
      `logging` does not put on a record: that is why the formatters fill in
      missing fields. */
  lemma DefaultFormatFields()
    ensures Fields(DefaultFormat) == ["asctime", "levelname", "name", "funcName", "request_id", "message"]
  {
    assert IsWord("message") && IsWord("request_id") && IsWord("funcName");
    assert IsWord("name") && IsWord("levelname") && IsWord("asctime");
    FieldsOfSixSegments("[", "asctime", "] [", "levelname", " | ", "name",
                        "] [", "funcName", "] [", "request_id", "] ", "message");
  }

  /** The length of the longest run at the start of `s` of characters from `chars`. */
  function RunOf(s: string, chars: string): (n: nat)
    ensures n <= |s|
    ensures forall i :: 0 <= i < n ==> s[i] in chars
    ensures n < |s| ==> s[n] !in chars
  {
    if |s| == 0 || s[0] !in chars then 0 else 1 + RunOf(s[1..], chars)
  }

  const Flags: string := "#0+ -"
  const Digits: string := "0123456789"

  /** A conversion type of `%`-style formatting, in either case. */
  predicate IsConversionChar(c: char) {
    c in "diouxefgcrsa%DIOUXEFGCRSA"
  }

  /** `(\*|\d+)?`: a star, a run of digits, or nothing. */
  function CountLength(s: string): (n: nat)
    ensures n <= |s|
  {
    if |s| > 0 && s[0] == '*' then 1 else RunOf(s, Digits)
  }

  /** `(\.(\*|\d+))?`: a dot followed by a count, or nothing. */
  function PrecisionLength(s: string): (n: nat)
    ensures n <= |s|
  {
    if |s| > 0 && s[0] == '.' && CountLength(s[1..]) > 0 then 1 + CountLength(s[1..]) else 0
  }

  /** A match at the start of `s` of the pattern `logging.PercentStyle` validates
      formats with, `%\(\w+\)[#0+ -]*(\*|\d+)?(\.(\*|\d+))?[diouxefgcrsa%]`
      (case-insensitive). The conversion letters share no character with the
      flags, digits, `.` and `*`, so the greedy reading below finds a match
      exactly when backtracking would. */
  predicate ConversionAtStart(s: string) {
    && |s| >= 2 && s[0] == '%' && s[1] == '('
    && var n := WordRun(s[2..]);
       && n > 0 && 3 + n <= |s| && s[2 + n] == ')'
       && var k := 3 + n + RunOf(s[3 + n..], Flags);
          var k2 := k + CountLength(s[k..]);
          var k3 := k2 + PrecisionLength(s[k2..]);
          k3 < |s| && IsConversionChar(s[k3])
  }

  /** `validation_pattern.search(fmt)` succeeds: scanning from the left, some
      position starts a match. */
  predicate HasConversion(s: string)
    decreases |s|
  {
    |s| > 0 && (ConversionAtStart(s) || HasConversion(s[1..]))
  }

  /** The scan finds a conversion exactly when one starts somewhere. */
  lemma HasConversionIff(s: string)
    ensures HasConversion(s) <==> exists i :: 0 <= i < |s| && ConversionAtStart(s[i..])
  {
    if HasConversion(s) {
      var i := ScanFinds(s);
    }
    if exists i :: 0 <= i < |s| && ConversionAtStart(s[i..]) {
      var i :| 0 <= i < |s| && ConversionAtStart(s[i..]);
      ScanReaches(s, i);
    }
  }

  /** What the scan finds starts at some position. */
  lemma {:induction false} ScanFinds(s: string) returns (i: nat)
    requires HasConversion(s)
    ensures i < |s| && ConversionAtStart(s[i..])
    decreases |s|
  {
    if ConversionAtStart(s) {
      i := 0;
      assert s[0..] == s;
    } else {
      var j := ScanFinds(s[1..]);
      assert s[1..][j..] == s[j + 1..];
      i := j + 1;
    }
  }

  /** The scan reaches every position. */
  lemma {:induction false} ScanReaches(s: string, i: nat)
    requires i < |s| && ConversionAtStart(s[i..])
    ensures HasConversion(s)
    decreases i
  {
    if i == 0 {
      assert s[0..] == s;
    } else {
      assert s[1..][i - 1..] == s[i..];
      ScanReaches(s[1..], i - 1);
    }
  }

  /** Every `%(name)s` placeholder is a conversion the formatter accepts. */
  lemma PlaceholderConverts(s: string, w: string, i: nat)
    requires IsWord(w) && OccursAt(s, Placeholder(w), i)
    ensures HasConversion(s)
  {
    var t := s[i..];
    var p := Placeholder(w);
    assert t[0..|p|] == s[i..i + |p|];
    PlaceholderAtFront(t, w);
    var n := |w|;
    assert t[3 + n..][0] == 's';
    assert RunOf(t[3 + n..], Flags) == 0;
    assert CountLength(t[3 + n..]) == 0;
    assert PrecisionLength(t[3 + n..]) == 0;
    assert ConversionAtStart(t);
    HasConversionIff(s);
  }

  /** A format with any field passes the formatter's validation. */
  lemma FieldsConvert(fmt: string)
    requires |Fields(fmt)| > 0
    ensures HasConversion(fmt)
  {
    FieldsSound(fmt);
    var f := Fields(fmt)[0];
    assert f in Fields(fmt);
    var i :| 0 <= i <= |fmt| && OccursAt(fmt, Placeholder(f), i);
    PlaceholderConverts(fmt, f, i);
  }

  /** The default format passes the formatter's validation. */
  lemma DefaultFormatConverts()
    ensures HasConversion(DefaultFormat)
  {
    DefaultFormatFields();
    FieldsConvert(DefaultFormat);
  }

  /** The two loops at the start of `format(record)`: first each format field the
      record lacks gets the context value or `''`; then each context variable the
      record still lacks is copied onto it. Existing attributes are never
      overwritten. */
  method FillRecord(record: Record, fmt: string, ctx: LoggerContext.Context) returns (r: Record)
    ensures r.Keys == record.Keys + (set f | f in Fields(fmt)) + ctx.Keys
    ensures forall k :: k in record ==> r[k] == record[k]
    ensures forall k :: k in r && k !in record ==> r[k] == LoggerContext.GetContext(ctx, k)
  {
    var contextData := LoggerContext.GetAllContext(ctx);
    var withFields := FillFields(record, Fields(fmt), contextData);
    r := FillContext(withFields, contextData);
  }

  /** The first loop: every listed field the record lacks is added with its
      context value, `''` when the context has none. */
  method FillFields(record: Record, fields: seq<string>, ctx: LoggerContext.Context) returns (r: Record)
    ensures r.Keys == record.Keys + (set f | f in fields)
    ensures forall k :: k in record ==> r[k] == record[k]
    ensures forall k :: k in r && k !in record ==> r[k] == LoggerContext.GetContext(ctx, k)
  {
    r := record;
    var i := 0;
    while i < |fields|
      invariant 0 <= i <= |fields|
      invariant r.Keys == record.Keys + (set j | 0 <= j < i :: fields[j])
      invariant forall k :: k in record ==> r[k] == record[k]
      invariant forall k :: k in r && k !in record ==> r[k] == LoggerContext.GetContext(ctx, k)
    {
      var field := fields[i];
      if field !in r {
        r := r[field := LoggerContext.GetContext(ctx, field)];
      }
      assert (set j | 0 <= j < i + 1 :: fields[j]) == (set j | 0 <= j < i :: fields[j]) + {fields[i]};
      i := i + 1;
    }
    assert (set j | 0 <= j < |fields| :: fields[j]) == (set f | f in fields);
  }

  /** The second loop: every context variable the record lacks is copied onto it. */
  method FillContext(record: Record, ctx: LoggerContext.Context) returns (r: Record)
    ensures r.Keys == record.Keys + ctx.Keys
    ensures forall k :: k in record ==> r[k] == record[k]
    ensures forall k :: k in r && k !in record ==> r[k] == ctx[k]
  {
    r := record;
    var pending := ctx.Keys;
    while pending != {}
      invariant pending <= ctx.Keys
      invariant r.Keys == record.Keys + (ctx.Keys - pending)
      invariant forall k :: k in record ==> r[k] == record[k]
      invariant forall k :: k in r && k !in record ==> r[k] == ctx[k]
      decreases pending
    {
      var key :| key in pending;
      if key !in r {
        r := r[key := ctx[key]];
      }
      pending := pending - {key};
    }
  }
}
