/**
 Strings in configuration files: a multi-line string is kept as an array of its
 lines, any other string as it is.
 */
module StringMarshalling {
  import opened Types
  import opened JsonMergePatch

  const NEWLINE := '\n'

  /** The position of the first newline, or the length. */
  function FirstNewline(s: string): (n: nat)
    ensures n <= |s| && NEWLINE !in s[..n]
    ensures n < |s| <==> NEWLINE in s
    ensures n < |s| ==> s[n] == NEWLINE
  {
    if s == "" || s[0] == NEWLINE then 0
    else
      var n := FirstNewline(s[1..]);
      assert s == [s[0]] + s[1..] && s[..1 + n] == [s[0]] + s[1..][..n];
      1 + n
  }

  function AfterLine(s: string): (rest: string)
    requires s != ""
    ensures |rest| < |s|
  {
    var n := FirstNewline(s);
    if n < |s| then s[n + 1..] else ""
  }

  /** The lines as `getline` delivers them: nothing is read from an exhausted stream. */
  function Lines(s: string): (lines: seq<string>)
    ensures lines == [] <==> s == ""
    decreases |s|
  {
    if s == "" then [] else [s[..FirstNewline(s)]] + Lines(AfterLine(s))
  }

  /** Every line followed by a newline. */
  function Joined(lines: seq<string>): string {
    if lines == [] then "" else lines[0] + [NEWLINE] + Joined(lines[1..])
  }

  function DropLast(s: string): string {
    if s == "" then "" else s[..|s| - 1]
  }

  predicate EndsInNewline(s: string) {
    s != "" && s[|s| - 1] == NEWLINE
  }

  // ----- Saving -----

  function Marshal(s: string): Json {
    if NEWLINE !in s then String(s) else Array(Texts(Lines(s)))
  }

  function Texts(lines: seq<string>): (elements: seq<Json>)
    ensures |elements| == |lines| && forall i :: 0 <= i < |lines| ==> elements[i] == String(lines[i])
  {
    seq(|lines|, i requires 0 <= i < |lines| => String(lines[i]))
  }

  method MarshalString(value: string) returns (r: Json)
    ensures r == Marshal(value)
  {
    if NEWLINE !in value {
      return String(value);
    }
    var rest, lines := value, [];
    while rest != ""
      invariant lines + Lines(rest) == Lines(value)
      decreases |rest|
    {
      var line := rest[..FirstNewline(rest)];
      lines := lines + [line];
      rest := AfterLine(rest);
    }
    assert lines + [] == lines;
    r := Array(Texts(lines));
  }

  // ----- Loading -----

  predicate AllStrings(elements: seq<Json>) {
    forall e :: e in elements ==> e.String?
  }

  function Strings(elements: seq<Json>): (lines: seq<string>)
    requires AllStrings(elements)
    ensures |lines| == |elements|
    ensures forall i :: 0 <= i < |lines| ==> elements[i] == String(lines[i])
  {
    assert forall i :: 0 <= i < |elements| ==> elements[i] in elements;
    seq(|elements|, i requires 0 <= i < |elements| => elements[i].s)
  }

  /** Nothing stands for the unmarshal error. */
  function Unmarshal(value: Json): Option<string> {
    match value
    case String(s) => Some(s)
    case Array(elements) => if AllStrings(elements) then Some(DropLast(Joined(Strings(elements)))) else None
    case _ => None
  }

  method UnmarshalString(value: Json) returns (r: Option<string>)
    ensures r == Unmarshal(value)
  {
    match value
    case String(s) => r := Some(s);
    case Array(elements) =>
      var text := "";
      for i := 0 to |elements|
        invariant AllStrings(elements[..i]) && text == Joined(Strings(elements[..i]))
      {
        if !elements[i].String? {
          assert elements[i] in elements;
          return None;
        }
        assert Strings(elements[..i + 1]) == Strings(elements[..i]) + [elements[i].s];
        JoinedSnoc(Strings(elements[..i]), elements[i].s);
        text := text + elements[i].s + [NEWLINE];
      }
      assert elements[..|elements|] == elements;
      r := Some(if text == "" then "" else text[..|text| - 1]);
    case _ => r := None;
  }

  // ----- The round trips -----

  lemma {:induction false} JoinedSnoc(lines: seq<string>, line: string)
    ensures Joined(lines + [line]) == Joined(lines) + line + [NEWLINE]
  {
    if lines == [] {
      assert [line][1..] == [];
      assert lines + [line] == [line];
    } else {
      JoinedSnoc(lines[1..], line);
      assert (lines + [line])[1..] == lines[1..] + [line];
    }
  }

  /** The text with its last line terminated. */
  function Terminated(s: string): string {
    if s == "" || EndsInNewline(s) then s else s + [NEWLINE]
  }

  lemma TerminatedOf(line: string, rest: string)
    ensures Terminated(line + [NEWLINE] + rest) == line + [NEWLINE] + Terminated(rest)
  {
    var s := line + [NEWLINE] + rest;
    if rest == "" {
      assert s[|s| - 1] == NEWLINE;
    } else {
      assert s[|s| - 1] == rest[|rest| - 1];
      assert s + [NEWLINE] == line + [NEWLINE] + (rest + [NEWLINE]);
    }
  }

  lemma JoinedCons(line: string, lines: seq<string>)
    ensures Joined([line] + lines) == line + [NEWLINE] + Joined(lines)
  {
    assert ([line] + lines)[1..] == lines;
  }

  lemma {:induction false} FirstNewlineIs(s: string, n: nat)
    requires n < |s| && NEWLINE !in s[..n] && s[n] == NEWLINE
    ensures FirstNewline(s) == n
  {
    if n > 0 {
      assert s[..n] == [s[0]] + s[1..][..n - 1];
      FirstNewlineIs(s[1..], n - 1);
    }
  }

  lemma FirstLineOf(line: string, rest: string)
    requires NEWLINE !in line
    ensures Lines(line + [NEWLINE] + rest) == [line] + Lines(rest)
  {
    var s := line + [NEWLINE] + rest;
    assert s[..|line|] == line && s[|line| + 1..] == rest;
    FirstNewlineIs(s, |line|);
  }

  lemma OneLine(line: string)
    requires NEWLINE !in line && line != ""
    ensures Lines(line) == [line]
  {
    assert line[..|line|] == line;
  }

  /** Joining the lines gives the text back, with its last line terminated. */
  lemma {:induction false} JoinedLines(s: string)
    ensures Joined(Lines(s)) == Terminated(s)
    decreases |s|
  {
    if s == "" {
    } else if NEWLINE in s {
      var n := FirstNewline(s);
      var line, rest := s[..n], s[n + 1..];
      assert s == line + [NEWLINE] + rest;
      hide *;
      JoinedLines(rest);
      FirstLineOf(line, rest);
      JoinedCons(line, Lines(rest));
      TerminatedOf(line, rest);
    } else {
      assert !EndsInNewline(s);
      OneLine(s);
      hide Lines;
      assert [s][1..] == [];
    }
  }

  lemma StringsOfTexts(lines: seq<string>)
    ensures AllStrings(Texts(lines)) && Strings(Texts(lines)) == lines
  {
  }

  /** A saved string loads as it was, or with exactly one trailing newline less. */
  lemma RoundTrip(s: string)
    ensures Unmarshal(Marshal(s)) == Some(if EndsInNewline(s) then s[..|s| - 1] else s)
  {
    if NEWLINE in s {
      JoinedLines(s);
      StringsOfTexts(Lines(s));
      DropTerminated(s);
      hide Lines, Joined, Texts, Strings, Terminated, DropLast, AllStrings;
    }
  }

  lemma DropTerminated(s: string)
    requires s != ""
    ensures DropLast(Terminated(s)) == if EndsInNewline(s) then s[..|s| - 1] else s
  {
  }

  lemma RoundTripIff(s: string)
    ensures Unmarshal(Marshal(s)) == Some(s) <==> !EndsInNewline(s)
  {
    RoundTrip(s);
  }

  predicate PlainLines(lines: seq<string>) {
    forall l :: l in lines ==> NEWLINE !in l
  }

  lemma {:induction false} LinesOfJoined(lines: seq<string>)
    requires lines != [] && PlainLines(lines) && lines[|lines| - 1] != ""
    ensures Lines(DropLast(Joined(lines))) == lines
  {
    assert lines == [lines[0]] + lines[1..];
    if |lines| == 1 {
      OneLine(lines[0]);
      assert DropLast(Joined(lines)) == lines[0];
    } else {
      LinesOfJoined(lines[1..]);
      FirstLineOf(lines[0], DropLast(Joined(lines[1..])));
      assert DropLast(Joined(lines)) == lines[0] + [NEWLINE] + DropLast(Joined(lines[1..]));
    }
  }

  lemma {:induction false} LinesArePlain(s: string)
    ensures PlainLines(Lines(s))
    decreases |s|
  {
    if s != "" {
      LinesArePlain(AfterLine(s));
    }
  }

  /** Two lines or more, the last one not empty, each without a newline. */
  predicate Saved(value: Json) {
    match value
    case String(s) => NEWLINE !in s
    case Array(elements) =>
      && AllStrings(elements) && |elements| >= 2
      && PlainLines(Strings(elements))
      && Strings(elements)[|elements| - 1] != ""
    case _ => false
  }

  lemma TextsOfStrings(elements: seq<Json>)
    requires AllStrings(elements)
    ensures Texts(Strings(elements)) == elements
  {
  }

  /** Exactly which values survive loading and saving again. */
  lemma ReloadIff(value: Json)
    requires Unmarshal(value).Some?
    ensures Marshal(Unmarshal(value).value) == value <==> Saved(value)
  {
    match value
    case String(_) =>
      hide Lines, Texts;
    case Array(elements) =>
      ReloadArrayIff(elements);
      hide Marshal, Saved, AllStrings, Joined, DropLast, Strings;
  }

  lemma ReloadArrayIff(elements: seq<Json>)
    requires AllStrings(elements)
    ensures Marshal(DropLast(Joined(Strings(elements)))) == Array(elements) <==> Saved(Array(elements))
  {
    hide Lines, Joined, DropLast, Texts, Strings, PlainLines, AllStrings;
    var lines := Strings(elements);
    var s := DropLast(Joined(lines));
    ReloadLinesIff(lines);
    SameTextsIff(Lines(s), elements);
  }

  lemma SameTextsIff(lines: seq<string>, elements: seq<Json>)
    requires AllStrings(elements)
    ensures Texts(lines) == elements <==> lines == Strings(elements)
  {
    TextsOfStrings(elements);
    StringsOfTexts(lines);
  }

  lemma LastLine(lines: seq<string>)
    requires |lines| >= 2 && lines[|lines| - 1] == ""
    ensures EndsInNewline(DropLast(Joined(lines)))
  {
    hide Joined;
    var front := lines[..|lines| - 1];
    assert lines == front + [""];
    assert front == front[..|front| - 1] + [front[|front| - 1]];
    JoinedSnoc(front, "");
    JoinedSnoc(front[..|front| - 1], front[|front| - 1]);
    assert DropLast(Joined(lines)) == Joined(front);
  }

  lemma ReloadLinesIff(lines: seq<string>)
    ensures var s := DropLast(Joined(lines));
            NEWLINE in s && Lines(s) == lines <==> |lines| >= 2 && PlainLines(lines) && lines[|lines| - 1] != ""
  {
    var s := DropLast(Joined(lines));
    if NEWLINE in s && Lines(s) == lines {
      LinesArePlain(s);
      JoinedLines(s);
      hide Lines;
      if |lines| >= 2 && lines[|lines| - 1] == "" {
        LastLine(lines);
      }
    } else if |lines| >= 2 && PlainLines(lines) && lines[|lines| - 1] != "" {
      LinesOfJoined(lines);
    }
  }

  // ----- Values that do not survive -----

  lemma TrailingNewlineIsLost()
    ensures Unmarshal(Marshal("a\n")) == Some("a")
  {
    RoundTrip("a\n");
    assert "a\n"[..1] == "a";
  }

  /** One line becomes a plain string, and an empty last line disappears. */
  lemma ShortArraysChange()
    ensures Unmarshal(Array([String("a")])) == Some("a") && Marshal("a") == String("a")
    ensures Unmarshal(Array([String("a"), String("")])) == Some("a\n")
    ensures Marshal("a\n") == Array([String("a")])
  {
    JoinedPair("a", "");
    FirstLineOf("a", "");
    assert Strings([String("a")]) == ["a"] && Strings([String("a"), String("")]) == ["a", ""];
    assert "a\n" == "a" + [NEWLINE] + "";
    assert Texts(["a"]) == [String("a")];
  }

  lemma JoinedPair(a: string, b: string)
    ensures Joined([a]) == a + [NEWLINE] && DropLast(Joined([a])) == a
    ensures Joined([a, b]) == a + [NEWLINE] + b + [NEWLINE] && DropLast(Joined([a, b])) == a + [NEWLINE] + b
  {
    JoinedSnoc([], a);
    JoinedSnoc([a], b);
    assert [] + [a] == [a] && [a] + [b] == [a, b] && "" + a == a;
  }
}
