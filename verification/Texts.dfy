/** Texts the validator reads: splitting into lines undoes joining them, splitting a path into components undoes joining
    them, and the state of a native boundary is read from the first line of its snapshot and, for a managed boundary, from
    the two marks of ownership behind it. */
module Texts {
  import opened ReleaseTypes
  import opened JournalRules

  predicate IsLine(text: string) {
    forall i :: 0 <= i < |text| ==> !IsBreak(text[i])
  }

  lemma {:induction false} NoBreak(line: string, rest: string)
    requires IsLine(line) && (rest == "" || IsBreak(rest[0]))
    ensures LineLength(line + rest) == |line|
  {
    if line == "" {
      assert line + rest == rest;
    } else {
      assert (line + rest)[1..] == line[1..] + rest;
      assert forall i :: 0 <= i < |line| - 1 ==> line[1..][i] == line[i + 1];
      NoBreak(line[1..], rest);
    }
  }

  lemma {:induction false} UnlinesIsSomething(lines: seq<string>)
    requires lines != [] && lines[|lines| - 1] != ""
    ensures Unlines(lines) != ""
  {
    if |lines| > 1 { UnlinesIsSomething(lines[1..]); }
  }

  /** The last line may be closed or left open. */
  predicate Closing(end: string) {
    end == "" || end == "\n"
  }

  lemma LastLine(line: string, end: string)
    requires IsLine(line) && line != "" && Closing(end)
    ensures Lines(line + end) == [line]
  {
    hide IsBreak, IsLine;
    BreakIsBreak();
    NoBreak(line, end);
    assert (line + end)[..|line|] == line;
  }

  lemma FirstLine(line: string, rest: string)
    requires IsLine(line) && rest != ""
    ensures Lines(line + "\n" + rest) == [line] + Lines(rest)
  {
    hide IsBreak, IsLine;
    BreakIsBreak();
    var text, tail := line + "\n" + rest, "\n" + rest;
    NoBreak(line, tail);
    assert line + tail == text && text[..|line|] == line && text[|line|] == '\n' && text[|line| + 1..] == rest;
  }

  /** Lines that were joined are split again, as long as the last one is not empty. */
  lemma {:induction false} LinesOfUnlines(lines: seq<string>, end: string)
    requires lines != [] && lines[|lines| - 1] != "" && forall i :: 0 <= i < |lines| ==> IsLine(lines[i])
    requires Closing(end)
    ensures Lines(Unlines(lines) + end) == lines
  {
    hide IsLine, Lines, Closing;
    if |lines| == 1 {
      LastLine(lines[0], end);
    } else {
      UnlinesIsSomething(lines[1..]);
      var rest := Unlines(lines[1..]);
      FirstLine(lines[0], rest + end);
      assert Unlines(lines) + end == lines[0] + "\n" + (rest + end);
      LinesOfUnlines(lines[1..], end);
    }
  }

  lemma BreakIsBreak()
    ensures IsBreak('\n')
  {
  }

  lemma FrontOrInside(a: string, part: string, b: string)
    ensures part <= a + part + b || a != ""
  {
    if a == "" { assert a + part + b == part + b; }
  }

  /** A text contains a part exactly if it is the part with something before and something behind. */
  lemma {:induction false} ContainsIsInside(text: string, part: string)
    ensures Contains(text, part) <==> exists a, b :: text == a + part + b
  {
    if part <= text {
      assert text == "" + part + text[|part|..];
    } else {
      if text != "" {
        ContainsIsInside(text[1..], part);
        if Contains(text[1..], part) {
          var a, b :| text[1..] == a + part + b;
          assert text == ([text[0]] + a) + part + b;
        }
      }
      forall a, b | text == a + part + b ensures Contains(text, part) {
        FrontOrInside(a, part, b);
        assert text[1..] == a[1..] + part + b;
      }
    }
  }

  /** A snapshot is of a managed boundary exactly if it is headed so and carries both marks of ownership, and of an absent
      one exactly if it is headed so and carries nothing else. */
  lemma StateOfSnapshot(header: string, body: seq<string>, end: string)
    requires Closing(end) && header != "" && IsLine(header) && (forall i :: 0 <= i < |body| ==> IsLine(body[i]))
    requires body != [] ==> body[|body| - 1] != ""
    ensures var state := SnapshotState(Unlines([header] + body) + end);
            && (state == Some(ManagedBoundary) <==>
                  && header == HEADER + "managed"
                  && (exists a, b :: Unlines(body) == a + TABLE_MARK + b) && (exists a, b :: Unlines(body) == a + OWNER_MARK + b))
            && (state == Some(AbsentBoundary) <==> header == HEADER + "absent" && body == [])
  {
    hide Lines, Unlines, Contains, IsBreak, IsLine;
    hide HEADER, TABLE_MARK, OWNER_MARK;
    var lines := [header] + body;
    LinesOfUnlines(lines, end);
    assert lines[1..] == body;
    ContainsIsInside(Unlines(body), TABLE_MARK);
    ContainsIsInside(Unlines(body), OWNER_MARK);
  }

  lemma FrontIsLine()
    ensures IsLine("# TRex WebUI native ")
  {
  }

  lemma BackIsLine()
    ensures IsLine("boundary snapshot v1: ")
  {
  }

  lemma HeaderIsLine()
    ensures IsLine(HEADER)
  {
    hide IsBreak;
    FrontIsLine();
    BackIsLine();
    var a, b := "# TRex WebUI native ", "boundary snapshot v1: ";
    assert HEADER == a + b;
    assert forall i :: 0 <= i < |a| ==> !IsBreak(a[i]);
    assert forall i :: 0 <= i < |b| ==> !IsBreak(b[i]);
  }

  lemma AbsentIsLine()
    ensures IsLine(HEADER + "absent")
  {
    HeaderIsLine();
    hide HEADER;
    assert IsLine("absent");
  }

  lemma AbsentIsState()
    ensures SnapshotState(HEADER + "absent") == Some(AbsentBoundary)
  {
    hide SnapshotState, IsLine, HEADER;
    var header := HEADER + "absent";
    AbsentIsLine();
    StateOfSnapshot(header, [], "");
    assert Unlines([header] + []) + "" == header;
  }

  // ---- paths ----

  function JoinPath(parts: seq<string>): string {
    if parts == [] then ""
    else if |parts| == 1 then parts[0]
    else parts[0] + "/" + JoinPath(parts[1..])
  }

  lemma {:induction false} UntilStop(text: string, rest: string, stop: char)
    requires stop !in text && (rest == "" || rest[0] == stop)
    ensures Until(text + rest, stop) == |text|
  {
    if text == "" {
      assert text + rest == rest;
    } else {
      assert (text + rest)[1..] == text[1..] + rest;
      UntilStop(text[1..], rest, stop);
    }
  }

  /** Components that were joined are split again. */
  lemma {:induction false} PartsOfJoin(parts: seq<string>)
    requires parts != [] && forall i :: 0 <= i < |parts| ==> '/' !in parts[i]
    ensures Parts(JoinPath(parts)) == parts
  {
    var part, path := parts[0], JoinPath(parts);
    if |parts| == 1 {
      UntilStop(part, "", '/');
      assert part + "" == part;
    } else {
      var rest := JoinPath(parts[1..]);
      UntilStop(part, "/" + rest, '/');
      assert path == part + ("/" + rest) && path[..|part|] == part && path[|part| + 1..] == rest;
      PartsOfJoin(parts[1..]);
    }
  }

  /** An absolute path is its own normal form exactly if no component leads upwards. */
  lemma NormalPathIsUpless(parts: seq<string>)
    requires parts != [] && forall i :: 0 <= i < |parts| ==> '/' !in parts[i] && '\0' !in parts[i]
    ensures NormalPath("/" + JoinPath(parts)) <==> ".." !in parts
  {
    hide Parts, JoinPath;
    var all := [""] + parts;
    PartsOfJoin(all);
    JoinedRoot(parts);
    NoZero(parts);
    assert ".." in all <==> ".." in parts;
  }

  lemma JoinedRoot(parts: seq<string>)
    requires parts != []
    ensures JoinPath([""] + parts) == "/" + JoinPath(parts)
  {
    assert ([""] + parts)[1..] == parts;
  }

  lemma {:induction false} NoZero(parts: seq<string>)
    requires forall i :: 0 <= i < |parts| ==> '\0' !in parts[i]
    ensures '\0' !in JoinPath(parts)
  {
    if |parts| > 1 { NoZero(parts[1..]); }
  }
}
