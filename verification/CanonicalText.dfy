/**
 The text an audit event's hash is taken over (`chain.ts`): each field as `name=<json>`, a line each, behind the
 predecessor's hash. Two events never share it.
 */
module CanonicalText {
  import opened Wrappers

  /** The fields in the order they are fed to the digest. */
  const FIELDS: seq<string> := [
    "at", "actorKind", "actorUserId", "actorName", "actorEmail", "apiKeyId", "apiKeyName", "action", "targetKind",
    "targetId", "targetLabel", "outcome", "detail", "ipAddress", "userAgent", "sessionId"]

  const HASH_LENGTH := 64

  function HexDigit(d: nat): char
    requires d < 16
  {
    "0123456789abcdef"[d]
  }

  /** One character inside a JSON string, as `JSON.stringify` writes it. */
  function Escaped(c: char): (s: string)
    ensures s != []
  {
    if c == '\"' then "\\\""
    else if c == '\\' then "\\\\"
    else if c == '\U{8}' then "\\b"
    else if c == '\U{C}' then "\\f"
    else if c == '\n' then "\\n"
    else if c == '\r' then "\\r"
    else if c == '\t' then "\\t"
    else if c < ' ' then "\\u00" + [HexDigit(c as int / 16), HexDigit(c as int % 16)]
    else [c]
  }

  function Inside(s: string): string { if s == [] then "\"" else Escaped(s[0]) + Inside(s[1..]) }

  /** `JSON.stringify` of a string or null. */
  function Json(v: Option<string>): string {
    match v
    case None => "null"
    case Some(s) => "\"" + Inside(s)
  }

  /** The lines from the first of these names on, joined by newlines. */
  function Lines(names: seq<string>, values: seq<Option<string>>): string
    requires |names| == |values| > 0
  {
    var line := names[0] + "=" + Json(values[0]);
    if |names| == 1 then line else line + "\n" + Lines(names[1..], values[1..])
  }

  function Canonical(values: seq<Option<string>>): string
    requires |values| == |FIELDS|
  {
    Lines(FIELDS, values)
  }

  /** What SHA-256 is given. */
  function Hashed(prevHash: string, values: seq<Option<string>>): string
    requires |values| == |FIELDS|
  {
    prevHash + "\n" + Canonical(values)
  }

  // ---------------------------------------------------------------- no text has two readings

  lemma SamePrefix(p: string, q: string, x: string, y: string)
    requires p + x == q + y && |p| == |q|
    ensures p == q && x == y
  {
    assert p == (p + x)[..|p|] && q == (q + y)[..|q|];
    assert x == (p + x)[|p|..] && y == (q + y)[|q|..];
  }

  lemma HexApart(a: nat, b: nat)
    requires a < 16 && b < 16 && HexDigit(a) == HexDigit(b)
    ensures a == b
  {
  }

  /** What an escape begins with says which it is, and none begins like the end of the string. */
  lemma EscapedIs(c: char)
    ensures Escaped(c)[0] != '\"'
    ensures Escaped(c)[0] != '\\' ==> Escaped(c) == [c]
    ensures Escaped(c)[0] == '\\' ==> |Escaped(c)| == (if Escaped(c)[1] == 'u' then 6 else 2)
  {
  }

  lemma EscapedApart(c: char, d: char, x: string, y: string)
    requires Escaped(c) + x == Escaped(d) + y
    ensures c == d && x == y
  {
    EscapedIs(c);
    EscapedIs(d);
    var e, f := Escaped(c), Escaped(d);
    assert (e + x)[0] == e[0] && (f + y)[0] == f[0];
    if e[0] == '\\' {
      assert (e + x)[1] == e[1] && (f + y)[1] == f[1];
    }
    assert |e| == |f|;
    SamePrefix(e, f, x, y);
    EscapedIsInjective(c, d);
  }

  lemma EscapedIsInjective(c: char, d: char)
    requires Escaped(c) == Escaped(d)
    ensures c == d
  {
    if |Escaped(c)| == 6 {
      assert Escaped(c)[4] == HexDigit(c as int / 16) && Escaped(c)[5] == HexDigit(c as int % 16);
      assert Escaped(d)[4] == HexDigit(d as int / 16) && Escaped(d)[5] == HexDigit(d as int % 16);
      HexApart(c as int / 16, d as int / 16);
      HexApart(c as int % 16, d as int % 16);
    }
  }

  /** A string is at its end exactly where a quote stands unescaped. */
  lemma EndsAtQuote(s: string, x: string)
    ensures Inside(s) + x != [] && ((Inside(s) + x)[0] == '\"' <==> s == [])
  {
    if s != [] {
      EscapedIs(s[0]);
      assert (Inside(s) + x)[0] == Escaped(s[0])[0];
    }
    hide Escaped;
  }

  lemma {:induction false} InsideApart(s: string, t: string, x: string, y: string)
    requires Inside(s) + x == Inside(t) + y
    ensures s == t && x == y
    decreases |s|
  {
    hide Escaped;
    EndsAtQuote(s, x);
    EndsAtQuote(t, y);
    if s == [] {
      SamePrefix("\"", "\"", x, y);
    } else {
      assert Inside(s) + x == Escaped(s[0]) + (Inside(s[1..]) + x);
      assert Inside(t) + y == Escaped(t[0]) + (Inside(t[1..]) + y);
      EscapedApart(s[0], t[0], Inside(s[1..]) + x, Inside(t[1..]) + y);
      InsideApart(s[1..], t[1..], x, y);
      assert s == [s[0]] + s[1..] && t == [t[0]] + t[1..];
    }
  }

  lemma JsonIs(v: Option<string>, x: string)
    ensures Json(v) + x != [] && ((Json(v) + x)[0] == '\"' <==> v.Some?)
    ensures v.Some? ==> Json(v) + x == "\"" + (Inside(v.value) + x)
  {
    hide Inside;
  }

  /** A value ends where it ends, whatever follows. */
  lemma JsonApart(v: Option<string>, w: Option<string>, x: string, y: string)
    requires Json(v) + x == Json(w) + y
    ensures v == w && x == y
  {
    JsonIs(v, x);
    JsonIs(w, y);
    hide Inside;
    if v.None? {
      SamePrefix("null", "null", x, y);
    } else {
      hide Json;
      SamePrefix("\"", "\"", Inside(v.value) + x, Inside(w.value) + y);
      InsideApart(v.value, w.value, x, y);
    }
  }

  lemma {:induction false} LinesApart(names: seq<string>, a: seq<Option<string>>, b: seq<Option<string>>)
    requires |names| == |a| == |b| > 0 && Lines(names, a) == Lines(names, b)
    ensures a == b
    decreases |names|
  {
    hide Json;
    var head := names[0] + "=";
    if |names| == 1 {
      assert Lines(names, a) == head + (Json(a[0]) + "") && Lines(names, b) == head + (Json(b[0]) + "");
      SamePrefix(head, head, Json(a[0]) + "", Json(b[0]) + "");
      JsonApart(a[0], b[0], "", "");
    } else {
      var x, y := "\n" + Lines(names[1..], a[1..]), "\n" + Lines(names[1..], b[1..]);
      assert Lines(names, a) == head + (Json(a[0]) + x) && Lines(names, b) == head + (Json(b[0]) + y);
      SamePrefix(head, head, Json(a[0]) + x, Json(b[0]) + y);
      JsonApart(a[0], b[0], x, y);
      SamePrefix("\n", "\n", Lines(names[1..], a[1..]), Lines(names[1..], b[1..]));
      LinesApart(names[1..], a[1..], b[1..]);
      assert a == [a[0]] + a[1..] && b == [b[0]] + b[1..];
    }
  }

  /**
   No field can forge the structure around it: two events hashed over one text have every field and the predecessor's
   hash in common.
   */
  lemma HashedApart(p: string, a: seq<Option<string>>, q: string, b: seq<Option<string>>)
    requires |a| == |b| == |FIELDS| && |p| == |q| == HASH_LENGTH && Hashed(p, a) == Hashed(q, b)
    ensures p == q && a == b
  {
    hide Lines;
    assert Hashed(p, a) == p + ("\n" + Canonical(a)) && Hashed(q, b) == q + ("\n" + Canonical(b));
    SamePrefix(p, q, "\n" + Canonical(a), "\n" + Canonical(b));
    SamePrefix("\n", "\n", Canonical(a), Canonical(b));
    LinesApart(FIELDS, a, b);
  }
}
