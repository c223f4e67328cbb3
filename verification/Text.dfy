/** Character scanning used by the configuration parser: trimming, searching and
    reading a text line by line. */
module Text {

  /** The six characters that `isspace` accepts in the C locale. */
  predicate IsSpace(c: char) {
    c == ' ' || '\t' <= c <= '\r'
  }

  ghost predicate AllSpace(s: string) {
    forall i | 0 <= i < |s| :: IsSpace(s[i])
  }

  /** Neither end of `s` is white space. */
  ghost predicate Trimmed(s: string) {
    s != "" ==> !IsSpace(s[0]) && !IsSpace(s[|s| - 1])
  }

  function TrimRight(s: string): string {
    if s != "" && IsSpace(s[|s| - 1]) then TrimRight(s[..|s| - 1]) else s
  }

  function TrimLeft(s: string): string {
    if s != "" && IsSpace(s[0]) then TrimLeft(s[1..]) else s
  }

  function Trim(s: string): string {
    TrimLeft(TrimRight(s))
  }

  lemma {:induction false} TrimRightOf(body: string, tail: string)
    requires AllSpace(tail)
    requires body != "" ==> !IsSpace(body[|body| - 1])
    ensures TrimRight(body + tail) == body
  {
    if tail == "" {
      assert body + tail == body;
    } else {
      var shorter := tail[..|tail| - 1];
      assert (body + tail)[..|body + tail| - 1] == body + shorter;
      TrimRightOf(body, shorter);
    }
  }

  lemma {:induction false} TrimLeftOf(lead: string, body: string)
    requires AllSpace(lead)
    requires body != "" ==> !IsSpace(body[0])
    ensures TrimLeft(lead + body) == body
  {
    if lead == "" {
      assert lead + body == body;
    } else {
      assert (lead + body)[1..] == lead[1..] + body;
      TrimLeftOf(lead[1..], body);
    }
  }

  lemma {:induction false} TrimRightSplits(s: string) returns (tail: string)
    ensures s == TrimRight(s) + tail && AllSpace(tail)
    ensures TrimRight(s) != "" ==> !IsSpace(TrimRight(s)[|TrimRight(s)| - 1])
  {
    if s != "" && IsSpace(s[|s| - 1]) {
      var rest := TrimRightSplits(s[..|s| - 1]);
      tail := rest + [s[|s| - 1]];
    } else {
      tail := "";
    }
  }

  lemma {:induction false} TrimLeftSplits(s: string) returns (lead: string)
    ensures s == lead + TrimLeft(s) && AllSpace(lead)
    ensures TrimLeft(s) != "" ==> !IsSpace(TrimLeft(s)[0])
  {
    if s != "" && IsSpace(s[0]) {
      var rest := TrimLeftSplits(s[1..]);
      lead := [s[0]] + rest;
    } else {
      lead := "";
    }
  }

  /** Trimming removes exactly the white space at both ends. */
  lemma TrimSplits(s: string) returns (lead: string, tail: string)
    ensures s == lead + Trim(s) + tail
    ensures AllSpace(lead) && AllSpace(tail) && Trimmed(Trim(s))
  {
    tail := TrimRightSplits(s);
    lead := TrimLeftSplits(TrimRight(s));
  }

  /** And it is the only text between white space whose ends are not white space. */
  lemma TrimOf(lead: string, body: string, tail: string)
    requires AllSpace(lead) && AllSpace(tail) && Trimmed(body)
    ensures Trim(lead + body + tail) == body
  {
    if body == "" {
      TrimRightOf("", lead + tail);
      assert lead + body + tail == "" + (lead + tail);
    } else {
      TrimRightOf(lead + body, tail);
      TrimLeftOf(lead, body);
    }
  }

  /** Erases white space at the right end, then at the left end. */
  method TrimInPlace(s: string) returns (t: string)
    ensures t == Trim(s)
    ensures Trimmed(t)
  {
    t := s;
    while t != "" && IsSpace(t[|t| - 1])
      invariant TrimRight(t) == TrimRight(s)
      decreases |t|
    {
      t := t[..|t| - 1];
    }
    while t != "" && IsSpace(t[0])
      invariant TrimLeft(t) == TrimLeft(TrimRight(s))
      decreases |t|
    {
      t := t[1..];
    }
    var lead, tail := TrimSplits(s);
  }

  /** Position of the first `c` in `s`, or `|s|` when there is none. */
  function Find(s: string, c: char): (i: nat)
    ensures i <= |s|
    ensures forall k | 0 <= k < i :: s[k] != c
    ensures i < |s| ==> s[i] == c
  {
    if s == "" || s[0] == c then 0 else 1 + Find(s[1..], c)
  }

  lemma FindIs(s: string, c: char, i: nat)
    requires i <= |s| && (forall k | 0 <= k < i :: s[k] != c) && (i < |s| ==> s[i] == c)
    ensures Find(s, c) == i
  {}

  /** What follows the newline at position `n`, or nothing when there is none. */
  function After(s: string, n: nat): (rest: string)
    requires n <= |s|
    ensures s != "" ==> |rest| < |s|
  {
    if n < |s| then s[n + 1..] else ""
  }

  /** The texts that repeated `getline` calls deliver: each ends at a newline or at
      the end of the text, and a final newline opens no further line. */
  function Lines(s: string): (lines: seq<string>)
    decreases |s|
  {
    if s == "" then []
    else
      var n := Find(s, '\n');
      [s[..n]] + Lines(After(s, n))
  }

  /** Reads one line from a position and moves past its newline, if it has one. */
  method GetLine(content: string, pos: nat) returns (line: string, next: nat)
    requires pos < |content|
    ensures pos < next <= |content|
    ensures Lines(content[pos..]) == [line] + Lines(content[next..])
  {
    var s := content[pos..];
    var n := Find(s, '\n');
    line := s[..n];
    next := if n < |s| then pos + n + 1 else |content|;
    assert content[next..] == After(s, n);
  }

  /** Each line followed by a newline. */
  function Unlines(lines: seq<string>): string {
    if lines == [] then "" else lines[0] + "\n" + Unlines(lines[1..])
  }

  ghost predicate OneLine(s: string) {
    forall i | 0 <= i < |s| :: s[i] != '\n'
  }

  ghost predicate AllOneLine(lines: seq<string>) {
    forall k | 0 <= k < |lines| :: OneLine(lines[k])
  }

  lemma FirstLine(line: string, rest: string)
    requires OneLine(line)
    ensures Lines(line + "\n" + rest) == [line] + Lines(rest)
  {
    var s, n := line + "\n" + rest, |line|;
    assert s[..n] == line && s[n] == '\n' && s[n + 1..] == rest;
    assert forall k | 0 <= k < n :: s[k] == line[k];
    FindIs(s, '\n', n);
  }

  lemma LinesOfUnlines(lines: seq<string>)
    requires AllOneLine(lines)
    ensures Lines(Unlines(lines)) == lines
  {
    LinesOfUnended(lines, "");
    assert Unlines(lines) + "" == Unlines(lines) && lines + [] == lines;
  }

  /** A last line needs no newline, unless it is empty. */
  lemma {:induction false} LinesOfUnended(lines: seq<string>, last: string)
    requires AllOneLine(lines) && OneLine(last)
    ensures Lines(Unlines(lines) + last) == lines + (if last == "" then [] else [last])
  {
    if lines == [] {
      LastLine(last);
      assert Unlines(lines) + last == last;
    } else {
      hide Lines, OneLine, Unlines;
      assert OneLine(lines[0]);
      FirstOfUnlines(lines, last);
      FirstLine(lines[0], Unlines(lines[1..]) + last);
      LinesOfUnended(lines[1..], last);
      HeadFirst(lines, if last == "" then [] else [last]);
    }
  }

  lemma FirstOfUnlines(lines: seq<string>, last: string)
    requires lines != []
    ensures Unlines(lines) + last == lines[0] + "\n" + (Unlines(lines[1..]) + last)
  {}

  lemma HeadFirst<T>(a: seq<T>, b: seq<T>)
    requires a != []
    ensures [a[0]] + (a[1..] + b) == a + b
  {}

  lemma LastLine(last: string)
    requires OneLine(last)
    ensures Lines(last) == if last == "" then [] else [last]
  {
    FindIs(last, '\n', |last|);
    assert last[..|last|] == last;
  }
}
