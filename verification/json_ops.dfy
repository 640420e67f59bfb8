/** The codec as the servers run it: loops over positions, writing into bounded buffers. */
module JsonOps {
  import opened Wrappers
  import opened Json

  /** The start of `buf` is the C string `s`. */
  ghost predicate Written(buf: array<char>, s: string)
    reads buf
  {
    |s| < buf.Length && buf[..|s|] == s && buf[|s|] == '\0'
  }

  function Behind(done: string, rest: Option<string>): Option<string> {
    if rest.None? then None else Some(done + rest.value)
  }

  lemma {:induction false} DecodeStep(text: string)
    requires text != ""
    ensures text[0] == '\\' ==> Decode(text) == if |text| == 1 then None else Behind([UnescapeChar(text[1])], Decode(text[2..]))
    ensures text[0] == '"' ==> Decode(text) == Some("")
    ensures text[0] != '\\' && text[0] != '"' ==> Decode(text) == Behind([text[0]], Decode(text[1..]))
  {
  }

  lemma {:induction false} BehindTwice(a: string, b: string, rest: Option<string>)
    ensures Behind(a, Behind(b, rest)) == Behind(a + b, rest)
  {
    if rest.Some? { assert a + (b + rest.value) == a + b + rest.value; }
  }

  /** Reads into a buffer of fixed size. It agrees with the unbounded reader exactly when the
      decoded value and its terminator fit. */
  method GetStringFixed(json: string, key: string, out: array<char>) returns (ok: bool)
    modifies out
    ensures ok <==> GetString(json, key).Some? && |GetString(json, key).value| < out.Length
    ensures ok ==> Written(out, GetString(json, key).value)
  {
    if out.Length == 0 {
      return false;
    }
    var pattern := Pattern(key);
    if |pattern| >= PatternLimit {
      return false;
    }
    var match0 := FirstMatch(json, pattern);
    if match0 < 0 {
      return false;
    }
    ok := DecodeInto(json, match0 + |pattern|, out);
  }

  /** The copying loop of the fixed-size reader. */
  method DecodeInto(json: string, start: nat, out: array<char>) returns (ok: bool)
    requires start <= |json| && out.Length > 0
    modifies out
    ensures ok <==> Decode(json[start..]).Some? && |Decode(json[start..]).value| < out.Length
    ensures ok ==> Written(out, Decode(json[start..]).value)
  {
    ghost var whole := Decode(json[start..]);
    var p, pos := start, 0;
    assert [] + json[start..] == json[start..];
    assert whole.Some? ==> "" + whole.value == whole.value;
    while p < |json|
      invariant start <= p <= |json| && 0 <= pos < out.Length
      invariant whole == Behind(out[..pos], Decode(json[p..]))
      decreases |json| - p
    {
      ghost var text, done := json[p..], out[..pos];
      DecodeStep(text);
      var c := json[p];
      p := p + 1;
      if c == '\\' {
        if p == |json| {
          return false;
        }
        c := UnescapeChar(json[p]);
        p := p + 1;
        assert text[2..] == json[p..];
      } else if c == '"' {
        out[pos] := '\0';
        assert done + "" == done;
        return true;
      } else {
        assert text[1..] == json[p..];
      }
      BehindTwice(done, [c], Decode(json[p..]));
      if pos + 1 >= out.Length {
        return false;
      }
      out[pos] := c;
      pos := pos + 1;
      assert out[..pos] == done + [c];
    }
    assert json[p..] == "";
    return false;
  }

  /** The first pass of the allocating reader: the length of the decoded value. */
  method MeasureValue(json: string, start: nat) returns (found: bool, len: nat)
    requires start <= |json|
    ensures found <==> Decode(json[start..]).Some?
    ensures found ==> len == |Decode(json[start..]).value|
  {
    ghost var whole := Decode(json[start..]);
    var scan := start;
    len := 0;
    while scan < |json|
      invariant start <= scan <= |json|
      invariant whole.Some? <==> Decode(json[scan..]).Some?
      invariant whole.Some? ==> |whole.value| == len + |Decode(json[scan..]).value|
      decreases |json| - scan
    {
      ghost var text := json[scan..];
      DecodeStep(text);
      var c := json[scan];
      if c == '\\' {
        scan := scan + 1;
        if scan == |json| {
          return false, len;
        }
        scan := scan + 1;
        len := len + 1;
        assert text[2..] == json[scan..];
      } else if c == '"' {
        return true, len;
      } else {
        scan := scan + 1;
        len := len + 1;
        assert text[1..] == json[scan..];
      }
    }
    assert json[scan..] == "";
    return false, len;
  }

  /** Measures, then copies into a buffer of exactly that size. */
  method GetStringAlloc(json: string, key: string) returns (value: Option<string>)
    ensures value == GetString(json, key)
  {
    var pattern := Pattern(key);
    if |pattern| >= PatternLimit {
      return None;
    }
    var match0 := FirstMatch(json, pattern);
    if match0 < 0 {
      return None;
    }
    var start := match0 + |pattern|;
    var found, len := MeasureValue(json, start);
    if !found {
      return None;
    }
    var buf := new char[len + 1];
    var ok := DecodeInto(json, start, buf);
    value := if ok then Some(buf[..len]) else None;
  }

  method PutAt(dst: array<char>, pos: nat, r: string)
    requires pos + |r| <= dst.Length
    modifies dst
    ensures dst[..pos + |r|] == old(dst[..pos]) + r
  {
    forall k | 0 <= k < |r| {
      dst[pos + k] := r[k];
    }
  }

  lemma {:induction false} EscapeStep(src: string, p: nat)
    requires p < |src|
    ensures Escape(src[p..]) == EscapeChar(src[p]) + Escape(src[p + 1..])
  {
    assert src[p..][1..] == src[p + 1..];
  }

  lemma {:induction false} EscapeNothing()
    ensures Escape("") == ""
  {
  }

  lemma {:induction false} MovedOver(done: string, r: string, rest: string)
    ensures done + (r + rest) == done + r + rest
  {
  }

  /** Writes the escaped value, or fails when it and its terminator do not fit. */
  method EscapeValue(dst: array<char>, src: string) returns (ok: bool)
    modifies dst
    ensures ok <==> |Escape(src)| < dst.Length
    ensures ok ==> Written(dst, Escape(src))
  {
    hide EscapeChar, Escape;
    var pos, p := 0, 0;
    assert src[0..] == src && dst[..0] + Escape(src) == Escape(src);
    while p < |src|
      invariant p <= |src| && 0 <= pos <= dst.Length
      invariant p > 0 ==> pos < dst.Length
      invariant dst[..pos] + Escape(src[p..]) == Escape(src)
    {
      var r := EscapeChar(src[p]);
      EscapeStep(src, p);
      MovedOver(dst[..pos], r, Escape(src[p + 1..]));
      if pos + |r| >= dst.Length {
        return false;
      }
      PutAt(dst, pos, r);
      pos := pos + |r|;
      p := p + 1;
    }
    EscapeNothing();
    assert src[p..] == "" && dst[..pos] + "" == dst[..pos];
    if pos >= dst.Length {
      return false;
    }
    dst[pos] := '\0';
    return true;
  }

  method EscapeLength(src: string) returns (len: nat)
    ensures len == |Escape(src)|
  {
    len := 0;
    var p := 0;
    while p < |src|
      invariant p <= |src| && len + |Escape(src[p..])| == |Escape(src)|
    {
      assert src[p..][1..] == src[p + 1..];
      var c := src[p];
      if c == '"' || c == '\\' || c == '\n' || c == '\r' || c == '\t' {
        len := len + 2;
      } else {
        len := len + 1;
      }
      p := p + 1;
    }
    assert src[p..] == "";
  }

  /** The measured buffer is always large enough. */
  method EscapeDup(value: string) returns (escaped: Option<string>)
    ensures escaped == Some(Escape(value))
  {
    var needed := EscapeLength(value);
    var buf := new char[needed + 1];
    var ok := EscapeValue(buf, value);
    if !ok {
      return None;
    }
    return Some(buf[..needed]);
  }
}
