/** Configuration files as text and as lines: reading, writing, and what a second reading sees. */
module ConfigLines {
  import opened Text

  /** CRLF becomes LF, from left to right. */
  function Normalize(s: string): string {
    if s == "" then ""
    else if "\r\n" <= s then "\n" + Normalize(s[2..])
    else [s[0]] + Normalize(s[1..])
  }

  function TrimNewline(s: string): string {
    if s != "" && s[|s| - 1] == '\n' then s[..|s| - 1] else s
  }

  /** `readLines`. */
  function ReadLines(content: string): (lines: seq<string>)
    ensures lines != []
    ensures forall l :: l in lines ==> '\n' !in l
  {
    SplitOn(TrimNewline(Normalize(content)), '\n')
  }

  /** What `writeLines` writes. */
  function FileText(lines: seq<string>): string {
    JoinWith(lines, '\n') + "\n"
  }

  // ---- text as terminated lines ----

  function Terminated(lines: seq<string>): string {
    if lines == [] then "" else lines[0] + "\n" + Terminated(lines[1..])
  }

  /** No line list writes nothing: the empty list and one empty line give the same file. */
  lemma {:induction false} FileTextTerminates(lines: seq<string>)
    ensures lines != [] ==> FileText(lines) == Terminated(lines)
    ensures lines == [] ==> FileText(lines) == Terminated([""])
    decreases |lines|
  {
    if lines == [] {
      assert Terminated([""]) == "" + "\n" + Terminated([]) == "\n";
    } else if |lines| == 1 {
      assert lines[1..] == [] && lines[0] + "\n" + "" == lines[0] + "\n";
    } else {
      FileTextTerminates(lines[1..]);
      assert lines[0] + "\n" + (JoinWith(lines[1..], '\n') + "\n") == lines[0] + "\n" + JoinWith(lines[1..], '\n') + "\n";
    }
  }

  lemma {:induction false} TerminatedConcat(a: seq<string>, b: seq<string>)
    ensures Terminated(a + b) == Terminated(a) + Terminated(b)
    decreases |a|
  {
    if a == [] {
      assert a + b == b && "" + Terminated(b) == Terminated(b);
    } else {
      TerminatedConcat(a[1..], b);
      assert (a + b)[1..] == a[1..] + b;
    }
  }

  // ---- line ends ----

  predicate EndsCR(line: string) {
    line != "" && line[|line| - 1] == '\r'
  }

  /** What a second reading makes of a line: one CR before the newline is lost. */
  function StripCR(line: string): string {
    if EndsCR(line) then line[..|line| - 1] else line
  }

  function StripAll(lines: seq<string>): (r: seq<string>)
    ensures |r| == |lines|
    ensures forall i :: 0 <= i < |lines| ==> r[i] == StripCR(lines[i])
  {
    seq(|lines|, i requires 0 <= i < |lines| => StripCR(lines[i]))
  }

  predicate NoneEndsCR(lines: seq<string>) {
    forall l :: l in lines ==> !EndsCR(l)
  }

  predicate OneLineEach(lines: seq<string>) {
    forall l :: l in lines ==> '\n' !in l
  }

  lemma StripAllConcat(a: seq<string>, b: seq<string>)
    ensures StripAll(a + b) == StripAll(a) + StripAll(b)
  {
  }

  lemma StripAllIdentity(lines: seq<string>)
    ensures NoneEndsCR(lines) <==> StripAll(lines) == lines
  {
    if StripAll(lines) == lines {
      forall l | l in lines ensures !EndsCR(l) {
        var i :| 0 <= i < |lines| && lines[i] == l;
        assert StripCR(l) == l;
      }
    }
    if NoneEndsCR(lines) {
      assert forall i :: 0 <= i < |lines| ==> StripAll(lines)[i] == lines[i];
    }
  }

  lemma {:induction false} NormalizeLine(line: string, rest: string)
    requires '\n' !in line
    ensures Normalize(line + "\n" + rest) == StripCR(line) + "\n" + Normalize(rest)
    decreases |line|
  {
    var s := line + "\n" + rest;
    if line == "" {
      assert s[0] == '\n' && s[1..] == rest;
      assert !("\r\n" <= s);
    } else if line == "\r" {
      assert s[0] == '\r' && s[1] == '\n' && s[2..] == rest;
      assert "\r\n" <= s;
      assert StripCR(line) == "" && "" + "\n" + Normalize(rest) == "\n" + Normalize(rest);
    } else {
      NoBreakInside(line, rest);
      NormalizeLine(line[1..], rest);
      StripCRTail(line);
      assert [line[0]] + (StripCR(line[1..]) + "\n" + Normalize(rest)) == StripCR(line) + "\n" + Normalize(rest);
    }
  }

  lemma NoBreakInside(line: string, rest: string)
    requires '\n' !in line && line != "" && line != "\r"
    ensures var s := line + "\n" + rest;
            !("\r\n" <= s) && s[0] == line[0] && s[1..] == line[1..] + "\n" + rest
  {
    var s := line + "\n" + rest;
    assert |line| > 1 ==> s[1] == line[1];
    assert s[0] == line[0];
    assert |line| == 1 ==> line == [line[0]];
  }

  lemma StripCRTail(line: string)
    requires line != "" && line != "\r"
    ensures [line[0]] + StripCR(line[1..]) == StripCR(line)
  {
    assert line == [line[0]] + line[1..];
  }

  lemma {:induction false} NormalizeTerminated(lines: seq<string>)
    requires OneLineEach(lines)
    ensures Normalize(Terminated(lines)) == Terminated(StripAll(lines))
    decreases |lines|
  {
    if lines != [] {
      NormalizeTerminated(lines[1..]);
      NormalizeLine(lines[0], Terminated(lines[1..]));
      assert StripAll(lines)[1..] == StripAll(lines[1..]);
    }
  }

  lemma TrimFileText(lines: seq<string>)
    ensures TrimNewline(FileText(lines)) == JoinWith(lines, '\n')
  {
    var s := FileText(lines);
    assert s[|s| - 1] == '\n' && s[..|s| - 1] == JoinWith(lines, '\n');
  }

  /** Reading back what was written: every line loses at most one trailing CR. */
  lemma ReadBack(lines: seq<string>)
    requires OneLineEach(lines)
    ensures ReadLines(FileText(lines)) == if lines == [] then [""] else StripAll(lines)
  {
    var shown := if lines == [] then [""] else lines;
    FileTextTerminates(lines);
    FileTextTerminates(StripAll(shown));
    NormalizeTerminated(shown);
    TrimFileText(StripAll(shown));
    forall l | l in StripAll(shown) ensures '\n' !in l {
      var i :| 0 <= i < |shown| && l == StripCR(shown[i]);
      assert shown[i] in shown;
    }
    SplitJoin(StripAll(shown), '\n');
    assert lines == [] ==> StripAll(shown) == [""];
  }

  // ---- entries that contain newlines ----

  /** The lines that the given entries become in the file. */
  function Physical(entries: seq<string>): (lines: seq<string>)
    ensures OneLineEach(lines)
    ensures |lines| >= |entries|
  {
    if entries == [] then [] else SplitOn(entries[0], '\n') + Physical(entries[1..])
  }

  lemma {:induction false} PhysicalConcat(a: seq<string>, b: seq<string>)
    ensures Physical(a + b) == Physical(a) + Physical(b)
    decreases |a|
  {
    if a == [] {
      assert a + b == b;
    } else {
      PhysicalConcat(a[1..], b);
      assert (a + b)[1..] == a[1..] + b;
    }
  }

  lemma {:induction false} PhysicalIdentity(entries: seq<string>)
    requires OneLineEach(entries)
    ensures Physical(entries) == entries
    decreases |entries|
  {
    if entries != [] {
      assert entries[0] in entries;
      SplitOnePart(entries[0], '\n');
      PhysicalIdentity(entries[1..]);
    }
  }

  lemma {:induction false} TerminatedSplit(entry: string)
    ensures Terminated(SplitOn(entry, '\n')) == entry + "\n"
    decreases |entry|
  {
    var lines := SplitOn(entry, '\n');
    if entry != "" {
      TerminatedSplit(entry[1..]);
      var rest := SplitOn(entry[1..], '\n');
      assert entry == [entry[0]] + entry[1..];
      if entry[0] == '\n' {
        assert lines[1..] == rest;
        assert Terminated(lines) == "" + "\n" + Terminated(rest);
      } else {
        assert lines[1..] == rest[1..];
        assert [entry[0]] + rest[0] + "\n" + Terminated(rest[1..]) == [entry[0]] + Terminated(rest);
      }
    } else {
      assert Terminated([""]) == "" + "\n" + Terminated([]);
    }
  }

  lemma {:induction false} TerminatedPhysical(entries: seq<string>)
    ensures Terminated(Physical(entries)) == Terminated(entries)
    decreases |entries|
  {
    if entries != [] {
      TerminatedSplit(entries[0]);
      TerminatedPhysical(entries[1..]);
      TerminatedConcat(SplitOn(entries[0], '\n'), Physical(entries[1..]));
    }
  }

  /** Reading back entries that may hold newlines and trailing CRs. */
  lemma ReadBackEntries(entries: seq<string>)
    ensures ReadLines(FileText(entries)) == if entries == [] then [""] else StripAll(Physical(entries))
  {
    ReadBack(Physical(entries));
    FileTextTerminates(entries);
    FileTextTerminates(Physical(entries));
    TerminatedPhysical(entries);
    if entries == [] { ReadBack([]); }
  }

  // ---- telling files apart ----

  /** Bytes that the lines take in a file. */
  function Size(lines: seq<string>): nat {
    if lines == [] then 0 else |lines[0]| + 1 + Size(lines[1..])
  }

  lemma {:induction false} SizeIsLength(lines: seq<string>)
    ensures |Terminated(lines)| == Size(lines)
    decreases |lines|
  {
    if lines != [] { SizeIsLength(lines[1..]); }
  }

  lemma {:induction false} SizeConcat(a: seq<string>, b: seq<string>)
    ensures Size(a + b) == Size(a) + Size(b)
    decreases |a|
  {
    if a == [] {
      assert a + b == b;
    } else {
      SizeConcat(a[1..], b);
      assert (a + b)[1..] == a[1..] + b;
    }
  }

  lemma {:induction false} StripShrinks(lines: seq<string>)
    ensures Size(StripAll(lines)) <= Size(lines)
    ensures Size(StripAll(lines)) == Size(lines) ==> NoneEndsCR(lines)
    decreases |lines|
  {
    if lines != [] {
      StripShrinks(lines[1..]);
      assert StripAll(lines)[1..] == StripAll(lines[1..]);
      assert forall l :: l in lines ==> l == lines[0] || l in lines[1..];
    }
  }

  /** The file determines its physical lines. */
  lemma {:induction false} SameTextSameLines(a: seq<string>, b: seq<string>)
    requires OneLineEach(a) && OneLineEach(b) && Terminated(a) == Terminated(b)
    ensures a == b
    decreases |a|
  {
    if a == [] || b == [] {
      SizeIsLength(a);
      SizeIsLength(b);
    } else {
      assert a[0] in a && b[0] in b;
      SplitFirstPart(a[0], '\n', Terminated(a[1..]));
      SplitFirstPart(b[0], '\n', Terminated(b[1..]));
      var s := SplitOn(Terminated(a), '\n');
      assert s[0] == a[0] && s[0] == b[0];
      var n := |a[0]| + 1;
      assert Terminated(a)[n..] == Terminated(a[1..]) && Terminated(b)[n..] == Terminated(b[1..]);
      SameTextSameLines(a[1..], b[1..]);
      assert a == [a[0]] + a[1..] && b == [b[0]] + b[1..];
    }
  }
}
