/** Quoting a value for an environment file: one physical line between two quotes. */
module EnvQuoting {
  import opened Outcomes

  const NUL := '\0'

  /** What one character becomes between the quotes. */
  function Escaped(c: char): (s: string)
    ensures 1 <= |s| <= 2
  {
    if c == '\n' then "\\n"
    else if c == '\r' then "\\r"
    else if c == NUL then "\\0"
    else if c == '\\' || c == '"' || c == '$' || c == '`' then ['\\', c]
    else [c]
  }

  function Body(value: string): string {
    if value == "" then "" else Escaped(value[0]) + Body(value[1..])
  }

  function Quoted(value: string): string {
    "\"" + Body(value) + "\""
  }

  /** What is written for each character. */
  lemma EscapesAre(c: char)
    ensures Escaped('\n') == ['\\', 'n'] && Escaped('\r') == ['\\', 'r'] && Escaped('\0') == ['\\', '0']
    ensures c in "\\\"$`" ==> Escaped(c) == ['\\', c]
    ensures c !in "\n\r\0\\\"$`" ==> Escaped(c) == [c]
  {
    var plain := "\n\r\0\\\"$`";
    assert plain[0] == '\n' && plain[1] == '\r' && plain[2] == '\0' && plain[3] == '\\';
    assert plain[4] == '"' && plain[5] == '$' && plain[6] == '`';
  }

  // ---- Reading it back ----

  function Unescape(c: char): char {
    if c == 'n' then '\n' else if c == 'r' then '\r' else if c == '0' then NUL else c
  }

  /** A body is read character by character; a backslash takes the next one along. */
  function ReadBody(body: string): Option<string>
    decreases |body|
  {
    if body == "" then Some("")
    else if body[0] != '\\' then
      var rest := ReadBody(body[1..]);
      if rest.None? then None else Some([body[0]] + rest.value)
    else if |body| < 2 then None
    else
      var rest := ReadBody(body[2..]);
      if rest.None? then None else Some([Unescape(body[1])] + rest.value)
  }

  function Unquote(text: string): Option<string> {
    if |text| < 2 || text[0] != '"' || text[|text| - 1] != '"' then None else ReadBody(text[1..|text| - 1])
  }

  lemma ReadEscaped(c: char, rest: string)
    ensures ReadBody(Escaped(c) + rest)
            == if ReadBody(rest).None? then None else Some([c] + ReadBody(rest).value)
  {
    var text := Escaped(c) + rest;
    assert text[|Escaped(c)|..] == rest;
  }

  lemma {:induction false} ReadBodyInverts(value: string)
    ensures ReadBody(Body(value)) == Some(value)
  {
    if value != "" {
      hide Escaped, ReadBody;
      ReadBodyInverts(value[1..]);
      ReadEscaped(value[0], Body(value[1..]));
      assert value == [value[0]] + value[1..];
    }
  }

  /** Unquoting inverts quoting on every string. */
  lemma UnquoteQuoted(value: string)
    ensures Unquote(Quoted(value)) == Some(value)
  {
    ReadBodyInverts(value);
    var text := Quoted(value);
    assert text[1..|text| - 1] == Body(value);
  }

  /** Different values never look the same in the file. */
  lemma QuotedIsInjective(v: string, w: string)
    requires Quoted(v) == Quoted(w)
    ensures v == w
  {
    UnquoteQuoted(v);
    UnquoteQuoted(w);
  }

  // ---- One line, and only the outer quotes are quotes ----

  predicate BreaksLine(c: char) {
    c == '\n' || c == '\r' || c == NUL
  }

  /** The characters that a reader would act on unless a backslash precedes them. */
  predicate Special(c: char) {
    c == '"' || c == '$' || c == '`'
  }

  /** `Bare(s, k)`: the character at `k` is read by itself, not as the one a backslash takes
      along. */
  ghost predicate Bare(s: string, k: nat)
    requires k < |s|
  {
    k == 0 || s[k - 1] != '\\' || !Bare(s, k - 1)
  }

  ghost predicate CleanBody(s: string) {
    && (forall k: nat | k < |s| :: !BreaksLine(s[k]))
    && (forall k: nat | k < |s| :: Special(s[k]) ==> !Bare(s, k))
  }

  lemma {:induction false} BareShift(a: string, s: string, k: nat)
    requires k < |s|
    requires a == "" || a[|a| - 1] != '\\' || !Bare(a, |a| - 1)
    ensures Bare(a + s, |a| + k) <==> Bare(s, k)
  {
    if k == 0 {
      if a != "" {
        BarePrefix(a, s, |a| - 1);
      }
    } else {
      BareShift(a, s, k - 1);
    }
  }

  lemma {:induction false} BarePrefix(a: string, s: string, k: nat)
    requires k < |a|
    ensures Bare(a + s, k) <==> Bare(a, k)
  {
    if k > 0 {
      BarePrefix(a, s, k - 1);
    }
  }

  lemma EscapedIsClean(c: char)
    ensures CleanBody(Escaped(c))
    ensures var e := Escaped(c); e[|e| - 1] != '\\' || !Bare(e, |e| - 1)
  {
    var e := Escaped(c);
    if |e| == 2 {
      assert Bare(e, 0) && !Bare(e, 1);
    }
  }

  lemma {:induction false} BodyIsClean(value: string)
    ensures CleanBody(Body(value))
    ensures var b := Body(value); b == "" || b[|b| - 1] != '\\' || !Bare(b, |b| - 1)
  {
    if value != "" {
      hide Escaped, BreaksLine, Special;
      var e, rest := Escaped(value[0]), Body(value[1..]);
      EscapedIsClean(value[0]);
      BodyIsClean(value[1..]);
      forall k: nat | k < |e|
        ensures Bare(e + rest, k) <==> Bare(e, k)
      {
        BarePrefix(e, rest, k);
      }
      forall k: nat | k < |rest|
        ensures Bare(e + rest, |e| + k) <==> Bare(rest, k)
      {
        BareShift(e, rest, k);
      }
      assert forall k: nat | |e| <= k < |e + rest| :: (e + rest)[k] == rest[k - |e|];
      CleanConcat(e, rest);
    }
  }

  lemma CleanConcat(e: string, rest: string)
    requires CleanBody(e) && CleanBody(rest)
    requires forall k: nat | k < |e| :: Bare(e + rest, k) <==> Bare(e, k)
    requires forall k: nat | k < |rest| :: Bare(e + rest, |e| + k) <==> Bare(rest, k)
    ensures CleanBody(e + rest)
  {
    hide BreaksLine, Special, Bare;
    var all := e + rest;
    forall k: nat | k < |all|
      ensures !BreaksLine(all[k]) && (Special(all[k]) ==> !Bare(all, k))
    {
      if k >= |e| {
        var j := k - |e|;
        assert all[k] == rest[j] && (Bare(all, |e| + j) <==> Bare(rest, j));
      } else {
        assert all[k] == e[k];
      }
    }
  }

  /** The quoted value is one physical line, and the only quotes, dollar signs and
      backquotes that no backslash precedes are its first and last character. */
  lemma QuotedIsOneLine(value: string)
    ensures var q := Quoted(value);
            && (forall k: nat | k < |q| :: !BreaksLine(q[k]))
            && (forall k: nat | k < |q| :: Special(q[k]) && Bare(q, k) <==> k == 0 || k == |q| - 1)
  {
    hide BreaksLine;
    var q, b := Quoted(value), Body(value);
    BodyIsClean(value);
    assert q == "\"" + b + "\"" == "\"" + (b + "\"");
    assert q[0] == '"' && q[|q| - 1] == '"' && Bare(q, 0);
    forall k: nat | 0 < k < |q| - 1
      ensures q[k] == b[k - 1] && (Bare(q, k) <==> Bare(b, k - 1))
    {
      BareShift("\"", b + "\"", k - 1);
      BarePrefix(b, "\"", k - 1);
    }
    if b != "" {
      assert q[|q| - 2] == b[|b| - 1];
      assert Bare(q, |q| - 2) <==> Bare(b, |b| - 1);
    }
    assert Bare(q, |q| - 1);
    assert !BreaksLine('"') by { QuoteStays(); }
  }

  lemma QuoteStays()
    ensures !BreaksLine('"')
  {}

  lemma {:induction false} BodySnoc(value: string, c: char)
    ensures Body(value + [c]) == Body(value) + Escaped(c)
  {
    hide Escaped;
    if value == "" {
      assert Body([c]) == Escaped(c) + Body([c][1..]) == Escaped(c);
    } else {
      BodySnoc(value[1..], c);
      assert (value + [c])[1..] == value[1..] + [c];
    }
  }

  /** The value is scanned once, each character appended as it is written. */
  method QuoteEnvValue(value: string) returns (quoted: string)
    ensures quoted == Quoted(value)
  {
    hide Body, Escaped;
    quoted := "\"";
    assert Body(value[..0]) == "" by { EmptyBody(); }
    for i := 0 to |value|
      invariant quoted == "\"" + Body(value[..i])
    {
      BodySnoc(value[..i], value[i]);
      assert value[..i + 1] == value[..i] + [value[i]];
      quoted := AppendEscaped(quoted, value[i]);
    }
    assert value[..|value|] == value;
    quoted := quoted + "\"";
  }

  lemma EmptyBody()
    ensures Body("") == ""
  {}

  method AppendEscaped(quoted: string, c: char) returns (r: string)
    ensures r == quoted + Escaped(c)
  {
    if c == '\n' {
      return quoted + "\\n";
    }
    if c == '\r' {
      return quoted + "\\r";
    }
    if c == NUL {
      return quoted + "\\0";
    }
    r := quoted;
    if c == '\\' || c == '"' || c == '$' || c == '`' {
      r := r + "\\";
    }
    r := r + [c];
  }
}
