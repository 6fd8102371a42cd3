/** Text inside SQL literals: quote doubling (SQL-92 section 5.3), LIKE patterns (section 8.5)
    and JSON text inside a literal. */
module SqlText {
  import opened Glob
  import opened MetaValues

  /** `_escape_sql_string`. */
  function EscapeSql(s: string): string {
    Replace(s, '\'', "''")
  }

  /** The text a literal body stands for; a lone quote would end the literal. */
  function Unquote(body: string): Option<string> {
    if body == "" then Some("")
    else if body[0] != '\'' then
      match Unquote(body[1..]) case None => None case Some(t) => Some([body[0]] + t)
    else if |body| > 1 && body[1] == '\'' then
      match Unquote(body[2..]) case None => None case Some(t) => Some("'" + t)
    else None
  }

  /** Undoubling gives back what was doubled. */
  lemma {:induction false} UnquoteEscaped(s: string)
    ensures Unquote(EscapeSql(s)) == Some(s)
    decreases |s|
  {
    if s == "" {
    } else {
      UnquoteEscaped(s[1..]);
      var body := EscapeSql(s);
      if s[0] == '\'' {
        assert body == "''" + EscapeSql(s[1..]) && body[2..] == EscapeSql(s[1..]);
        assert s == "'" + s[1..];
      } else {
        assert body == [s[0]] + EscapeSql(s[1..]) && body[1..] == EscapeSql(s[1..]);
        assert s == [s[0]] + s[1..];
      }
    }
  }

  /** And no other body stands for it. */
  lemma {:induction false} EscapeUnquoted(body: string)
    ensures Unquote(body).Some? ==> EscapeSql(Unquote(body).value) == body
    decreases |body|
  {
    if body == "" {
    } else {
      if body[0] != '\'' {
        EscapeUnquoted(body[1..]);
        if Unquote(body[1..]).Some? {
          var t := Unquote(body[1..]).value;
          assert ([body[0]] + t)[1..] == t && body == [body[0]] + body[1..];
        }
      } else if |body| > 1 && body[1] == '\'' {
        EscapeUnquoted(body[2..]);
        if Unquote(body[2..]).Some? {
          var t := Unquote(body[2..]).value;
          assert ("'" + t)[1..] == t && body == "''" + body[2..];
        }
      }
    }
  }

  lemma {:induction false} ReplaceNothing(s: string, c: char, to: string)
    requires c !in s
    ensures Replace(s, c, to) == s
    decreases |s|
  {
    if s == "" {
    } else {
      ReplaceNothing(s[1..], c, to);
    }
  }

  /** Quote-free decoration around an escaped text survives undoubling. */
  lemma UnquoteFramed(a: string, s: string, b: string)
    requires '\'' !in a && '\'' !in b
    ensures Unquote(a + EscapeSql(s) + b) == Some(a + s + b)
  {
    ReplaceNothing(a, '\'', "''");
    ReplaceNothing(b, '\'', "''");
    ReplaceConcat(a, s, '\'', "''");
    ReplaceConcat(a + s, b, '\'', "''");
    UnquoteEscaped(a + s + b);
  }

  // ---------- LIKE patterns inside a literal

  function StartBody(t: string): string { EscapeSql(Escape(LIKE, t)) + "%" }

  function EndBody(t: string): string { "%" + EscapeSql(Escape(LIKE, t)) }

  ghost predicate LikeBody(body: string, v: string) {
    Unquote(body).Some? && Match(LIKE, Unquote(body).value, v)
  }

  lemma StartBodyMeans(t: string, v: string)
    ensures Unquote(StartBody(t)).Some?
    ensures LikeBody(StartBody(t), v) <==> StartsWith(v, t)
  {
    var e := Escape(LIKE, t);
    assert "" + EscapeSql(e) + "%" == StartBody(t) && "" + e + "%" == e + ['%'];
    UnquoteFramed("", e, "%");
    MatchesStart(LIKE, t, v);
  }

  lemma EndBodyMeans(t: string, v: string)
    ensures Unquote(EndBody(t)).Some?
    ensures LikeBody(EndBody(t), v) <==> EndsWith(v, t)
  {
    var e := Escape(LIKE, t);
    assert "%" + EscapeSql(e) + "" == EndBody(t) && "%" + e + "" == ['%'] + e;
    UnquoteFramed("%", e, "");
    MatchesEnd(LIKE, t, v);
  }

  // ---------- JSON text inside a literal

  function JsonBody(t: string): string { "\"" + EscapeSql(t) + "\"" }

  /** The JSON text handed to `JSON_CONTAINS`: the search text between double quotes. */
  function JsonText(t: string): string { "\"" + t + "\"" }

  lemma JsonBodyMeans(t: string)
    ensures Unquote(JsonBody(t)) == Some(JsonText(t))
  {
    UnquoteFramed("\"", t, "\"");
  }

  /** What a JSON string (RFC 8259 section 7) stands for, read from just after the opening
      quote; `hex` decodes the four digits of a `\u` escape. */
  function DecodeJson(s: string, hex: string -> char): Option<string> {
    if s == "" || s[0] < ' ' then None
    else if s[0] == '"' then if |s| == 1 then Some("") else None
    else if s[0] != '\\' then Prepend(s[0], DecodeJson(s[1..], hex))
    else if |s| > 1 && s[1] in "\"\\/bfnrt" then Prepend(Escaped(s[1]), DecodeJson(s[2..], hex))
    else if |s| > 5 && s[1] == 'u' then Prepend(hex(s[2..6]), DecodeJson(s[6..], hex))
    else None
  }

  function Prepend(c: char, t: Option<string>): Option<string> {
    match t case None => None case Some(r) => Some([c] + r)
  }

  function Escaped(c: char): char {
    if c == 'b' then 8 as char else if c == 'f' then 12 as char else if c == 'n' then '\n'
    else if c == 'r' then '\r' else if c == 't' then '\t' else c
  }

  /** No character that JSON wants escaped. */
  predicate PlainJson(t: string) {
    forall i :: 0 <= i < |t| ==> t[i] != '"' && t[i] != '\\' && t[i] >= ' '
  }

  lemma {:induction false} DecodeShrinks(s: string, hex: string -> char)
    ensures DecodeJson(s, hex).Some? ==> |DecodeJson(s, hex).value| < |s|
    ensures DecodeJson(s, hex).Some? && '\\' in s ==> |DecodeJson(s, hex).value| + 1 < |s|
    decreases |s|
  {
    if s == "" {
    } else {
      assert s == [s[0]] + s[1..];
      DecodeShrinks(s[1..], hex);
      if |s| > 1 { DecodeShrinks(s[2..], hex); }
      if |s| > 5 { DecodeShrinks(s[6..], hex); }
    }
  }

  /** Text is put between double quotes as it is, so the engine reads the searched text back
      exactly when nothing in it needs a JSON escape. */
  lemma {:induction false} JsonFaithful(t: string, hex: string -> char)
    ensures DecodeJson(t + "\"", hex) == Some(t) <==> PlainJson(t)
    decreases |t|
  {
    var s := t + "\"";
    if t == "" {
    } else {
      assert s[0] == t[0] && s[1..] == t[1..] + "\"" && t == [t[0]] + t[1..];
      JsonFaithful(t[1..], hex);
      DecodeShrinks(s, hex);
      if t[0] == '\\' {
        assert '\\' in s;
      } else if t[0] != '"' && t[0] >= ' ' {
        var rest := DecodeJson(s[1..], hex);
        if rest.Some? && [t[0]] + rest.value == t { assert rest.value == ([t[0]] + rest.value)[1..] == t[1..]; }
        if PlainJson(t) { assert forall i :: 0 <= i < |t[1..]| ==> t[1..][i] == t[i + 1]; }
      }
    }
  }
}
