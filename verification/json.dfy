/** The wire codec: an escaping printer and a field reader that looks for `"key":"` as plain
    text. The reader still finds the right field, whatever the values contain. */
module Json {
  import opened Wrappers

  const PatternLimit := 128

  // ---------------------------------------------------------------- escaping

  function EscapeChar(c: char): (r: string)
    ensures |r| == 1 || |r| == 2
  {
    if c == '"' then "\\\""
    else if c == '\\' then "\\\\"
    else if c == '\n' then "\\n"
    else if c == '\r' then "\\r"
    else if c == '\t' then "\\t"
    else [c]
  }

  function Escape(value: string): string {
    if value == "" then "" else EscapeChar(value[0]) + Escape(value[1..])
  }

  function UnescapeChar(c: char): char {
    if c == 'n' then '\n' else if c == 'r' then '\r' else if c == 't' then '\t' else c
  }

  /** Reads an escaped value up to its closing quote; None when the text ends first. */
  function Decode(text: string): Option<string>
    decreases |text|
  {
    if text == "" then None
    else if text[0] == '\\' then
      if |text| == 1 then None
      else
        var rest := Decode(text[2..]);
        if rest.None? then None else Some([UnescapeChar(text[1])] + rest.value)
    else if text[0] == '"' then Some("")
    else
      var rest := Decode(text[1..]);
      if rest.None? then None else Some([text[0]] + rest.value)
  }

  lemma {:induction false} DecodeEscape(value: string, rest: string)
    ensures Decode(Escape(value) + "\"" + rest) == Some(value)
    decreases |value|
  {
    if value == "" {
      assert Escape(value) + "\"" + rest == "\"" + rest;
    } else {
      var tail := Escape(value[1..]) + "\"" + rest;
      DecodeEscape(value[1..], rest);
      assert Escape(value) + "\"" + rest == EscapeChar(value[0]) + tail;
      DecodeOne(value[0], tail);
      assert value == [value[0]] + value[1..];
    }
  }

  lemma {:induction false} DecodeOne(c: char, tail: string)
    requires Decode(tail).Some?
    ensures Decode(EscapeChar(c) + tail) == Some([c] + Decode(tail).value)
  {
    var text := EscapeChar(c) + tail;
    if |EscapeChar(c)| == 2 {
      assert text[2..] == tail;
    } else {
      assert text[1..] == tail;
    }
  }

  /** A quote in an escaped value always stands behind a backslash. */
  predicate QuoteSafe(e: string) {
    forall j :: 0 <= j < |e| && e[j] == '"' ==> j > 0 && e[j - 1] == '\\'
  }

  lemma {:induction false} EscapeIsQuoteSafe(value: string)
    ensures QuoteSafe(Escape(value))
    decreases |value|
  {
    if value != "" {
      EscapeIsQuoteSafe(value[1..]);
      var head, rest := EscapeChar(value[0]), Escape(value[1..]);
      var e := head + rest;
      forall j | 0 <= j < |e| && e[j] == '"' ensures j > 0 && e[j - 1] == '\\' {
        if j >= |head| {
          assert rest[j - |head|] == '"';
          assert e[j - 1] == rest[j - |head| - 1];
        }
      }
    }
  }

  /** No line break, carriage return or tab is sent raw. */
  lemma {:induction false} EscapeHidesControls(value: string)
    ensures '\n' !in Escape(value) && '\r' !in Escape(value) && '\t' !in Escape(value)
    decreases |value|
  {
    if value != "" {
      EscapeHidesControls(value[1..]);
      var head := EscapeChar(value[0]);
      assert '\n' !in head && '\r' !in head && '\t' !in head;
    }
  }

  /** A character behind a backslash stands for itself unless it is one of the three letters. */
  lemma {:induction false} DecodePlainEscape(c: char, rest: string)
    requires c != 'n' && c != 'r' && c != 't' && Decode(rest).Some?
    ensures Decode("\\" + [c] + rest) == Some([c] + Decode(rest).value)
  {
    var text := "\\" + [c] + rest;
    assert text[0] == '\\' && text[1] == c && text[2..] == rest;
  }

  // ---------------------------------------------------------------- searching

  predicate MatchAt(text: string, pattern: string, p: nat) {
    p + |pattern| <= |text| && text[p..p + |pattern|] == pattern
  }

  /** The position of the first occurrence, or -1. */
  function FirstMatch(text: string, pattern: string): (p: int)
    ensures p >= -1
    ensures p == -1 ==> forall q: nat :: !MatchAt(text, pattern, q)
    ensures p >= 0 ==> MatchAt(text, pattern, p) && forall q: nat :: q < p ==> !MatchAt(text, pattern, q)
  {
    FirstMatchFrom(text, pattern, 0)
  }

  function FirstMatchFrom(text: string, pattern: string, from: nat): (p: int)
    requires from <= |text|
    requires forall q: nat :: q < from ==> !MatchAt(text, pattern, q)
    ensures p >= -1
    ensures p == -1 ==> forall q: nat :: !MatchAt(text, pattern, q)
    ensures p >= 0 ==> MatchAt(text, pattern, p) && forall q: nat :: q < p ==> !MatchAt(text, pattern, q)
    decreases |text| - from
  {
    if MatchAt(text, pattern, from) then from
    else if from == |text| then -1
    else FirstMatchFrom(text, pattern, from + 1)
  }

  function Pattern(key: string): string {
    "\"" + key + "\":\""
  }

  /** The reader without its buffers: the text behind the first match, decoded. */
  function ReadField(json: string, key: string): Option<string> {
    var p := FirstMatch(json, Pattern(key));
    if p < 0 then None else Decode(json[p + |Pattern(key)|..])
  }

  function GetString(json: string, key: string): Option<string> {
    if |Pattern(key)| >= PatternLimit then None else ReadField(json, key)
  }

  lemma {:induction false} MatchBehind(prefix: string, rest: string, pattern: string, q: nat)
    ensures MatchAt(prefix + rest, pattern, |prefix| + q) <==> MatchAt(rest, pattern, q)
  {
    if q + |pattern| <= |rest| {
      assert (prefix + rest)[|prefix| + q..|prefix| + q + |pattern|] == rest[q..q + |pattern|];
    }
  }

  /** Text without a match in front does not change what is read. */
  lemma {:induction false} SkipPrefix(prefix: string, rest: string, key: string)
    requires forall q: nat :: q < |prefix| ==> !MatchAt(prefix + rest, Pattern(key), q)
    ensures ReadField(prefix + rest, key) == ReadField(rest, key)
  {
    var text, pattern := prefix + rest, Pattern(key);
    hide MatchAt, Pattern, Decode, FirstMatch;
    FirstMatchBehind(prefix, rest, pattern);
    var q := FirstMatch(rest, pattern);
    if q >= 0 {
      MatchFits(rest, pattern, q);
      assert text[|prefix| + q + |pattern|..] == rest[q + |pattern|..];
    }
  }

  lemma {:induction false} MatchFits(text: string, pattern: string, p: nat)
    requires MatchAt(text, pattern, p)
    ensures p + |pattern| <= |text|
  {
  }

  lemma {:induction false} FirstMatchBehind(prefix: string, rest: string, pattern: string)
    requires forall q: nat :: q < |prefix| ==> !MatchAt(prefix + rest, pattern, q)
    ensures FirstMatch(prefix + rest, pattern)
            == if FirstMatch(rest, pattern) < 0 then -1 else |prefix| + FirstMatch(rest, pattern)
  {
    hide MatchAt, FirstMatch;
    var p, q := FirstMatch(prefix + rest, pattern), FirstMatch(rest, pattern);
    if q >= 0 {
      MatchBehind(prefix, rest, pattern, q);
    }
    if p >= |prefix| {
      MatchBehind(prefix, rest, pattern, p - |prefix|);
    }
  }

  // ---------------------------------------------------------------- messages

  /** A message field: an escaped string, or a number written without quotes. */
  datatype Field = Text(key: string, value: string) | Number(key: string, digits: string)

  predicate AlphaNum(c: char) {
    'a' <= c <= 'z' || 'A' <= c <= 'Z' || '0' <= c <= '9'
  }

  predicate GoodKey(key: string) {
    key != "" && forall i :: 0 <= i < |key| ==> AlphaNum(key[i])
  }

  predicate GoodField(f: Field) {
    GoodKey(f.key) && (f.Number? ==> forall i :: 0 <= i < |f.digits| ==> '0' <= f.digits[i] <= '9' || f.digits[i] == '-')
  }

  predicate GoodFields(fields: seq<Field>) {
    forall i :: 0 <= i < |fields| ==> GoodField(fields[i])
  }

  function RenderField(f: Field): string {
    match f
    case Text(key, value) => Pattern(key) + Escape(value) + "\""
    case Number(key, digits) => "\"" + key + "\":" + digits
  }

  function RenderRest(fields: seq<Field>): string {
    if fields == [] then "}"
    else RenderField(fields[0]) + (if |fields| == 1 then "}" else "," + RenderRest(fields[1..]))
  }

  function Message(fields: seq<Field>): string {
    "{" + RenderRest(fields)
  }

  /** The value of the first string field with this key. */
  function Lookup(fields: seq<Field>, key: string): Option<string> {
    if fields == [] then None
    else if fields[0].Text? && fields[0].key == key then Some(fields[0].value)
    else Lookup(fields[1..], key)
  }

  // What a match of the pattern for `key` at `p` says, character by character.
  ghost predicate Matched(text: string, key: string, p: nat) {
    var n := |key|;
    && p + n + 4 <= |text|
    && text[p] == '"' && text[p + n + 1] == '"' && text[p + n + 2] == ':' && text[p + n + 3] == '"'
    && forall i {:trigger key[i]} :: 0 <= i < n ==> text[p + 1 + i] == key[i]
  }

  lemma {:induction false} PatternAt(key: string)
    ensures var pattern, n := Pattern(key), |key|;
            && |pattern| == n + 4 && pattern[0] == '"' && pattern[n + 1] == '"' && pattern[n + 2] == ':' && pattern[n + 3] == '"'
            && pattern[1..n + 1] == key
  {
  }

  lemma {:induction false} MatchedAt(text: string, key: string, p: nat)
    requires MatchAt(text, Pattern(key), p)
    ensures Matched(text, key, p)
  {
    hide Pattern;
    var pattern, n := Pattern(key), |key|;
    PatternAt(key);
    var window := text[p..p + |pattern|];
    assert forall i :: 0 <= i < |pattern| ==> window[i] == text[p + i];
    forall i | 0 <= i < n ensures text[p + 1 + i] == key[i] {
      assert text[p + (i + 1)] == pattern[i + 1] == pattern[1..n + 1][i];
    }
  }

  lemma {:induction false} MatchedIff(text: string, key: string, p: nat)
    ensures MatchAt(text, Pattern(key), p) <==> Matched(text, key, p)
  {
    if MatchAt(text, Pattern(key), p) {
      MatchedAt(text, key, p);
    }
    if Matched(text, key, p) {
      hide Pattern;
      var pattern, n := Pattern(key), |key|;
      PatternAt(key);
      forall i | 0 <= i < |pattern| ensures text[p + i] == pattern[i] {
        if 1 <= i <= n { assert text[p + 1 + (i - 1)] == key[i - 1] == pattern[1..n + 1][i - 1]; }
      }
      assert text[p..p + |pattern|] == pattern;
    }
  }

  // `"name":` at the start of a text.
  ghost predicate Headed(text: string, name: string) {
    var m := |name|;
    && m + 3 <= |text|
    && text[0] == '"' && text[m + 1] == '"' && text[m + 2] == ':'
    && forall i {:trigger name[i]} :: 0 <= i < m ==> text[1 + i] == name[i]
  }

  lemma {:induction false} HeadMatch(text: string, name: string, key: string)
    requires GoodKey(name) && GoodKey(key) && Headed(text, name) && Matched(text, key, 0)
    ensures name == key
  {
    var m, n := |name|, |key|;
    assert n < m ==> AlphaNum(name[n]);
    assert m < n ==> AlphaNum(key[m]);
    forall i | 0 <= i < n && n == m ensures name[i] == key[i] {
      assert text[1 + i] == name[i];
    }
  }

  lemma {:induction false} NoMatchInHead(text: string, name: string, key: string, p: nat)
    requires GoodKey(name) && GoodKey(key) && Headed(text, name) && 0 < p <= |name| + 2
    ensures !Matched(text, key, p)
  {
    assert p <= |name| ==> AlphaNum(name[p - 1]);
    assert AlphaNum(key[0]);
  }

  // A quote-safe stretch from `from` to `end`, then a closing quote and a separator.
  ghost predicate Valued(text: string, from: nat, end: nat) {
    && 0 < from <= end && end + 1 < |text|
    && text[from - 1] == '"' && text[end] == '"' && (text[end + 1] == ',' || text[end + 1] == '}')
    && forall j :: from <= j < end && text[j] == '"' ==> j > from && text[j - 1] == '\\'
  }

  lemma {:induction false} NoMatchInValue(text: string, from: nat, end: nat, key: string, p: nat)
    requires GoodKey(key) && Valued(text, from, end) && from - 1 <= p <= end + 1
    ensures !Matched(text, key, p)
  {
    assert AlphaNum(key[0]) && AlphaNum(key[|key| - 1]);
    assert p < end < p + |key| + 1 ==> AlphaNum(key[end - p - 1]);
  }

  /** Inside one rendered field and its separator, the pattern matches only at a string field
      of that key, and there only at its start. */
  lemma {:induction false} FieldScan(f: Field, sep: char, rest: string, key: string, p: nat)
    requires GoodField(f) && GoodKey(key) && (sep == ',' || sep == '}')
    requires p <= |RenderField(f)|
    ensures var text := RenderField(f) + [sep] + rest;
            MatchAt(text, Pattern(key), p) <==> p == 0 && f.Text? && f.key == key
  {
    var text, m := RenderField(f) + [sep] + rest, |f.key|;
    MatchedIff(text, key, p);
    RenderedHead(f, sep, rest);
    if 0 < p <= m + 2 {
      NoMatchInHead(text, f.key, key, p);
    } else if p == 0 {
      if Matched(text, key, 0) {
        HeadMatch(text, f.key, key);
      }
      NumberIsNotText(f, sep, rest);
    } else if f.Text? {
      RenderedValue(f, sep, rest);
      NoMatchInValue(text, m + 4, |RenderField(f)| - 1, key, p);
    } else {
      NumberIsNotText(f, sep, rest);
    }
  }

  lemma {:induction false} RenderedHead(f: Field, sep: char, rest: string)
    ensures Headed(RenderField(f) + [sep] + rest, f.key)
    ensures f.Text? ==> Matched(RenderField(f) + [sep] + rest, f.key, 0)
  {
    var text, m := RenderField(f) + [sep] + rest, |f.key|;
    var head := "\"" + f.key + "\":";
    assert head[0] == '"' && head[m + 1] == '"' && head[m + 2] == ':';
    assert forall i :: 0 <= i < m ==> head[1 + i] == f.key[i];
    assert forall i :: 0 <= i < |head| ==> text[i] == head[i] by {
      if f.Text? {
        assert Pattern(f.key) == head + "\"";
      }
    }
    if f.Text? {
      assert text[m + 3] == Pattern(f.key)[m + 3];
    }
  }

  lemma {:induction false} RenderedValue(f: Field, sep: char, rest: string)
    requires f.Text? && (sep == ',' || sep == '}')
    ensures Valued(RenderField(f) + [sep] + rest, |f.key| + 4, |RenderField(f)| - 1)
  {
    var e, head := Escape(f.value), Pattern(f.key);
    var text, from := RenderField(f) + [sep] + rest, |head|;
    EscapeIsQuoteSafe(f.value);
    assert forall j :: 0 <= j < |e| ==> text[from + j] == e[j];
    assert text[from - 1] == head[from - 1] == '"';
    forall j | from <= j < from + |e| && text[j] == '"' ensures j > from && text[j - 1] == '\\' {
      assert e[j - from] == '"';
      assert text[from + (j - from - 1)] == e[j - from - 1];
    }
  }

  lemma {:induction false} NumberIsNotText(f: Field, sep: char, rest: string)
    requires GoodField(f) && (sep == ',' || sep == '}')
    ensures var text := RenderField(f) + [sep] + rest;
            f.Number? ==> forall j :: |f.key| + 3 <= j <= |RenderField(f)| ==> text[j] != '"'
  {
    if f.Number? {
      var text, from := RenderField(f) + [sep] + rest, |f.key| + 3;
      forall j | from <= j <= |RenderField(f)| ensures text[j] != '"' {
        if j < |RenderField(f)| { assert text[j] == f.digits[j - from]; }
      }
    }
  }

  lemma {:induction false} ReadShort(text: string, key: string)
    requires |text| <= 1
    ensures ReadField(text, key) == None
  {
    assert forall q: nat :: !MatchAt(text, Pattern(key), q);
  }

  /** The reader on a rendered field list. */
  lemma {:induction false} ReadRest(fields: seq<Field>, key: string)
    requires GoodFields(fields) && GoodKey(key)
    ensures ReadField(RenderRest(fields), key) == Lookup(fields, key)
    decreases |fields|
  {
    hide ReadField, RenderField;
    if fields == [] {
      ReadShort("}", key);
    } else {
      var f, sep := fields[0], if |fields| == 1 then '}' else ',';
      var rest := if |fields| == 1 then "" else RenderRest(fields[1..]);
      assert RenderRest(fields) == RenderField(f) + [sep] + rest;
      ReadOne(f, sep, rest, key);
      if |fields| == 1 {
        assert Lookup(fields[1..], key) == None;
        ReadShort("", key);
      } else {
        ReadRest(fields[1..], key);
      }
    }
  }

  lemma {:induction false} ReadHit(f: Field, sep: char, rest: string)
    requires GoodField(f) && f.Text? && (sep == ',' || sep == '}')
    ensures ReadField(RenderField(f) + [sep] + rest, f.key) == Some(f.value)
  {
    var text, pattern := RenderField(f) + [sep] + rest, Pattern(f.key);
    FieldScan(f, sep, rest, f.key, 0);
    assert FirstMatch(text, pattern) == 0;
    assert text[|pattern|..] == Escape(f.value) + "\"" + ([sep] + rest);
    hide Decode, FirstMatch, MatchAt, Escape;
    DecodeEscape(f.value, [sep] + rest);
  }

  lemma {:induction false} ReadPast(f: Field, sep: char, rest: string, key: string)
    requires GoodField(f) && GoodKey(key) && (sep == ',' || sep == '}') && !(f.Text? && f.key == key)
    ensures ReadField(RenderField(f) + [sep] + rest, key) == ReadField(rest, key)
  {
    hide ReadField, RenderField, MatchAt, Pattern;
    var prefix := RenderField(f) + [sep];
    forall q: nat | q < |prefix| ensures !MatchAt(prefix + rest, Pattern(key), q) {
      FieldScan(f, sep, rest, key, q);
    }
    SkipPrefix(prefix, rest, key);
  }

  lemma {:induction false} ReadOne(f: Field, sep: char, rest: string, key: string)
    requires GoodField(f) && GoodKey(key) && (sep == ',' || sep == '}')
    ensures ReadField(RenderField(f) + [sep] + rest, key)
            == if f.Text? && f.key == key then Some(f.value) else ReadField(rest, key)
  {
    hide ReadField, RenderField;
    if f.Text? && f.key == key {
      ReadHit(f, sep, rest);
    } else {
      ReadPast(f, sep, rest, key);
    }
  }

  /** What a message looks like on the wire. */
  lemma {:induction false} MessageOnTheWire(key: string, value: string, other: string, digits: string)
    ensures Message([]) == "{}"
    ensures Message([Text(key, value)]) == "{\"" + key + "\":\"" + Escape(value) + "\"}"
    ensures Message([Text(key, value), Number(other, digits)])
            == "{\"" + key + "\":\"" + Escape(value) + "\",\"" + other + "\":" + digits + "}"
  {
    var one, two := [Text(key, value)], [Text(key, value), Number(other, digits)];
    assert two[1..] == [Number(other, digits)];
    hide Escape;
    assert RenderField(one[0]) == "\"" + key + "\":\"" + Escape(value) + "\"";
    assert RenderRest(two[1..]) == "\"" + other + "\":" + digits + "}";
  }

  /** Round trip: on any message of good keys, with any values at all, the reader returns the
      original value of the first string field of that key, and nothing for other keys. */
  lemma {:induction false} FieldRoundTrip(fields: seq<Field>, key: string)
    requires GoodFields(fields) && GoodKey(key)
    ensures GetString(Message(fields), key) == if |key| < 124 then Lookup(fields, key) else None
  {
    var pattern := Pattern(key);
    forall q: nat | q < 1 ensures !MatchAt("{" + RenderRest(fields), pattern, q) {
      MatchedIff("{" + RenderRest(fields), key, 0);
    }
    SkipPrefix("{", RenderRest(fields), key);
    ReadRest(fields, key);
  }

  predicate DistinctKeys(fields: seq<Field>) {
    forall i, j :: 0 <= i < j < |fields| ==> fields[i].key != fields[j].key
  }

  lemma {:induction false} LookupFinds(fields: seq<Field>, i: nat)
    requires DistinctKeys(fields) && i < |fields| && fields[i].Text?
    ensures Lookup(fields, fields[i].key) == Some(fields[i].value)
  {
    if i > 0 {
      assert fields[0].key != fields[i].key;
      LookupFinds(fields[1..], i - 1);
    }
  }

  /** With distinct keys every field comes back, quotes, backslashes and key-like text included. */
  lemma {:induction false} EveryFieldReadsBack(fields: seq<Field>, i: nat)
    requires GoodFields(fields) && DistinctKeys(fields)
    requires i < |fields| && fields[i].Text? && |fields[i].key| < 124
    ensures GetString(Message(fields), fields[i].key) == Some(fields[i].value)
  {
    FieldRoundTrip(fields, fields[i].key);
    LookupFinds(fields, i);
  }
}
