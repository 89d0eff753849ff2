/** How the `/docs` endpoint of src/main.py reads its `username` and `password`
    query parameters back from the URL the `/login` endpoint redirected to:
    the query is the part of the URL after the first `?` and before any `#`, it
    is split on `&` into `name=value` pairs and each side is decoded as a form
    field (`+` is a space, `%XX` an escaped character), and the last pair with a
    given name wins. Also a percent-encoder whose output this decoding
    undoes. */
module QueryString {
  import opened Wrappers
  import Hex

  /** The index of the first `c` in `s`. */
  function Find(s: string, c: char): (i: nat)
    requires c in s
    ensures i < |s| && s[i] == c && c !in s[..i]
  {
    if s[0] == c then 0
    else
      assert c in s[1..] by { var j :| 0 <= j < |s| && s[j] == c; assert s[1..][j - 1] == c; }
      var k := Find(s[1..], c);
      assert s[..k + 1] == [s[0]] + s[1..][..k];
      k + 1
  }

  /** `s.split(sep)`: the pieces between separators, empty ones included. */
  function Split(s: string, sep: char): (r: seq<string>)
    ensures |r| >= 1
    ensures forall i :: 0 <= i < |r| ==> sep !in r[i]
    decreases |s|
  {
    if sep !in s then [s]
    else
      var i := Find(s, sep);
      [s[..i]] + Split(s[i + 1..], sep)
  }

  /** `sep.join(pieces)`. */
  function Join(pieces: seq<string>, sep: char): string
    requires |pieces| >= 1
  {
    if |pieces| == 1 then pieces[0] else pieces[0] + [sep] + Join(pieces[1..], sep)
  }

  /** Splitting loses nothing: joining the pieces gives the string back. */
  lemma {:induction false} SplitJoin(s: string, sep: char)
    ensures Join(Split(s, sep), sep) == s
    decreases |s|
  {
    if sep in s {
      var i := Find(s, sep);
      SplitJoin(s[i + 1..], sep);
      assert s == s[..i] + [sep] + s[i + 1..];
    }
  }

  /** The first `c` of `a + [c] + b` is the one after `a` when `a` has none. */
  lemma FindAfter(a: string, c: char, b: string)
    requires c !in a
    ensures c in a + [c] + b && Find(a + [c] + b, c) == |a|
  {
    var s := a + [c] + b;
    assert s[|a|] == c;
    var i := Find(s, c);
    assert s[..|a|] == a;
  }

  /** A piece without the separator splits off at the first separator. */
  lemma SplitFirst(a: string, sep: char, b: string)
    requires sep !in a
    ensures Split(a + [sep] + b, sep) == [a] + Split(b, sep)
  {
    var s := a + [sep] + b;
    FindAfter(a, sep, b);
    assert s[..|a|] == a && s[|a| + 1..] == b;
  }

  /** Python's `unquote(s.replace('+', ' '))` restricted to ASCII escapes: `+` is
      a space, `%` and two hex digits (either case) denoting a value below 0x80
      is that character, and anything else stands for itself. */
  function DecodeComponent(s: string): (r: string)
    ensures |r| <= |s|
    ensures '+' !in s && '%' !in s ==> r == s
    decreases |s|
  {
    if |s| == 0 then ""
    else if s[0] == '%' && |s| >= 3 && Hex.Decode(s[1..3]).Some? && Hex.Decode(s[1..3]).value < 0x80 then
      [Hex.Decode(s[1..3]).value as char] + DecodeComponent(s[3..])
    else if s[0] == '+' then " " + DecodeComponent(s[1..])
    else
      assert '+' !in s && '%' !in s ==> '+' !in s[1..] && '%' !in s[1..] by {
        if '+' in s[1..] { var j :| 0 <= j < |s| - 1 && s[1..][j] == '+'; assert s[j + 1] == '+'; }
        if '%' in s[1..] { var j :| 0 <= j < |s| - 1 && s[1..][j] == '%'; assert s[j + 1] == '%'; }
      }
      [s[0]] + DecodeComponent(s[1..])
  }

  /** The decoded `(name, value)` pairs of the pieces of a query, in order, as
      `parse_qsl(query, keep_blank_values=True)` yields them: empty pieces are
      skipped, a piece splits at its first `=`, and a piece without one has the
      empty value. */
  function Pairs(pieces: seq<string>): (r: seq<(string, string)>)
    ensures |r| <= |pieces|
  {
    if |pieces| == 0 then []
    else if pieces[0] == "" then Pairs(pieces[1..])
    else
      var p := pieces[0];
      var nv := if '=' in p then (p[..Find(p, '=')], p[Find(p, '=') + 1..]) else (p, "");
      [(DecodeComponent(nv.0), DecodeComponent(nv.1))] + Pairs(pieces[1..])
  }

  /** The value of the last pair named `key`, as a multi-valued query parameter
      read as one value gives it. */
  function LastValue(pairs: seq<(string, string)>, key: string): (r: Option<string>)
    ensures r.None? <==> forall i :: 0 <= i < |pairs| ==> pairs[i].0 != key
    ensures r.Some? ==> exists i :: (0 <= i < |pairs| && pairs[i] == (key, r.value)
      && forall j :: i < j < |pairs| ==> pairs[j].0 != key)
  {
    if |pairs| == 0 then None
    else
      var rest := LastValue(pairs[1..], key);
      if rest.Some? then
        var i :| 0 <= i < |pairs[1..]| && pairs[1..][i] == (key, rest.value)
          && forall j :: i < j < |pairs[1..]| ==> pairs[1..][j].0 != key;
        assert pairs[i + 1] == (key, rest.value);
        assert forall j :: i + 1 < j < |pairs| ==> pairs[j].0 == pairs[1..][j - 1].0;
        rest
      else if pairs[0].0 == key then Some(pairs[0].1)
      else
        assert forall i :: 1 <= i < |pairs| ==> pairs[i] == pairs[1..][i - 1];
        None
  }

  /** The query string a URL carries: the fragment is cut off first, then
      everything up to and including the first `?`. */
  function QueryPart(url: string): string {
    var beforeFragment := if '#' in url then url[..Find(url, '#')] else url;
    if '?' in beforeFragment then beforeFragment[Find(beforeFragment, '?') + 1..] else ""
  }

  /** The query of a URL with one `?`, after which no `#` follows. */
  lemma QueryPartOf(head: string, query: string)
    requires '?' !in head && '#' !in head && '#' !in query
    ensures QueryPart(head + "?" + query) == query
  {
    var url := head + "?" + query;
    FindAfter(head, '?', query);
    assert url[|head| + 1..] == query;
  }

  /** The query parameter `key` of `url`, `None` when absent. */
  function QueryParam(url: string, key: string): Option<string> {
    LastValue(Pairs(Split(QueryPart(url), '&')), key)
  }

  /** `name=value` with a name free of `=` splits into that name and value. */
  lemma PairOf(name: string, value: string, rest: seq<string>)
    requires '=' !in name && name != ""
    ensures Pairs([name + "=" + value] + rest)
         == [(DecodeComponent(name), DecodeComponent(value))] + Pairs(rest)
  {
    var piece := name + "=" + value;
    FindAfter(name, '=', value);
    assert piece[..|name|] == name && piece[|name| + 1..] == value;
    assert ([piece] + rest)[0] == piece && ([piece] + rest)[1..] == rest;
  }

  /** A query of two pieces, neither holding `&` or `#`, splits into them. */
  lemma TwoPieces(head: string, first: string, second: string)
    requires '?' !in head && '#' !in head
    requires '&' !in first && '#' !in first && '#' !in second && '&' !in second
    ensures Split(QueryPart(head + "?" + first + "&" + second), '&') == [first, second]
  {
    var query := first + "&" + second;
    assert head + "?" + first + "&" + second == head + "?" + query;
    QueryPartOf(head, query);
    SplitFirst(first, '&', second);
  }

  /** A parameter name made of unreserved characters only. */
  predicate PlainName(n: string) {
    n != "" && forall i :: 0 <= i < |n| ==> IsUnreserved(n[i])
  }

  lemma PlainNameFacts(n: string)
    requires PlainName(n)
    ensures '=' !in n && '&' !in n && '#' !in n && '+' !in n && '%' !in n
    ensures DecodeComponent(n) == n
  {
    assert forall c :: c in n ==> IsUnreserved(c);
  }

  /** A query of two `name=value` parameters with plain, distinct names yields
      each value decoded. */
  lemma TwoParams(head: string, n1: string, v1: string, n2: string, v2: string)
    requires '?' !in head && '#' !in head
    requires PlainName(n1) && PlainName(n2) && n1 != n2
    requires '&' !in v1 && '#' !in v1 && '&' !in v2 && '#' !in v2
    ensures QueryParam(head + "?" + (n1 + "=" + v1) + "&" + (n2 + "=" + v2), n1) == Some(DecodeComponent(v1))
    ensures QueryParam(head + "?" + (n1 + "=" + v1) + "&" + (n2 + "=" + v2), n2) == Some(DecodeComponent(v2))
  {
    PlainNameFacts(n1);
    PlainNameFacts(n2);
    var first := n1 + "=" + v1;
    var second := n2 + "=" + v2;
    assert '&' !in first && '#' !in first;
    assert '&' !in second && '#' !in second;
    TwoPieces(head, first, second);
    PairsOfTwo(n1, v1, n2, v2);
    LastOfTwo((n1, DecodeComponent(v1)), (n2, DecodeComponent(v2)));
  }

  /** Two `name=value` pieces with plain names decode to their two pairs. */
  lemma PairsOfTwo(n1: string, v1: string, n2: string, v2: string)
    requires PlainName(n1) && PlainName(n2)
    ensures Pairs([n1 + "=" + v1, n2 + "=" + v2]) == [(n1, DecodeComponent(v1)), (n2, DecodeComponent(v2))]
  {
    PlainNameFacts(n1);
    PlainNameFacts(n2);
    var first := n1 + "=" + v1;
    var second := n2 + "=" + v2;
    PairOf(n2, v2, []);
    assert [second] + [] == [second];
    PairOf(n1, v1, [second]);
    assert [first] + [second] == [first, second];
  }

  /** In two pairs with distinct names, each name's value is its own. */
  lemma LastOfTwo(a: (string, string), b: (string, string))
    requires a.0 != b.0
    ensures LastValue([a, b], a.0) == Some(a.1)
    ensures LastValue([a, b], b.0) == Some(b.1)
  {
    assert [a, b][1..] == [b];
    assert [b][1..] == [];
  }

  /** The characters a URL may carry unescaped in any position. */
  predicate IsUnreserved(c: char) {
    ('a' <= c <= 'z') || ('A' <= c <= 'Z') || ('0' <= c <= '9') || c == '-' || c == '.' || c == '_' || c == '~'
  }

  /** One character, escaped as `%` and two hex digits unless it is unreserved.
      Characters beyond ASCII are left for the URL layer, which escapes them as
      UTF-8 and unescapes them symmetrically. */
  function EncodeChar(c: char): (r: string)
    ensures |r| >= 1
    ensures forall i :: 0 <= i < |r| ==> r[i] != '&' && r[i] != '#' && r[i] != '+' && r[i] != '=' && r[i] != '?'
  {
    if IsUnreserved(c) || c as int >= 0x80 then [c]
    else
      assert Hex.Pow16(2) == 256;
      "%" + Hex.Fixed(c as int, 2)
  }

  /** `s` with each character escaped by `EncodeChar`. */
  function EncodeComponent(s: string): (r: string)
    ensures forall i :: 0 <= i < |r| ==> r[i] != '&' && r[i] != '#' && r[i] != '+' && r[i] != '=' && r[i] != '?'
  {
    if |s| == 0 then "" else EncodeChar(s[0]) + EncodeComponent(s[1..])
  }

  /** Decoding an encoded character gives it back and resumes just after it. */
  lemma DecodeEncodeChar(c: char, rest: string)
    ensures DecodeComponent(EncodeChar(c) + rest) == [c] + DecodeComponent(rest)
  {
    var s := EncodeChar(c) + rest;
    if IsUnreserved(c) || c as int >= 0x80 {
      assert s[0] == c && s[1..] == rest;
      if c == '%' || c == '+' { assert false; }
    } else {
      assert Hex.Pow16(2) == 256;
      var digits := Hex.Fixed(c as int, 2);
      Hex.DecodeFixed(c as int, 2);
      assert s[1..3] == digits;
      assert s[3..] == rest;
    }
  }

  /** Round trip: decoding undoes encoding, for every string. */
  lemma {:induction false} DecodeEncode(s: string)
    ensures DecodeComponent(EncodeComponent(s)) == s
    decreases |s|
  {
    if |s| > 0 {
      DecodeEncodeChar(s[0], EncodeComponent(s[1..]));
      DecodeEncode(s[1..]);
      assert EncodeComponent(s) == EncodeChar(s[0]) + EncodeComponent(s[1..]);
      assert s == [s[0]] + s[1..];
    }
  }
}
