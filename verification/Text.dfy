/** Byte-string helpers shared by the models; text is ASCII (see README, "Left out"). */
module Text {

  datatype Option<+T> = None | Some(value: T)

  datatype Result<+T, +E> = Success(value: T) | Failure(error: E)

  /** White space as the trimming and field-splitting library calls see it. */
  predicate IsSpace(c: char) {
    c in " \t\n\r" || c == 11 as char || c == 12 as char
  }

  /** True when nothing is left of `s` after trimming. */
  predicate Blank(s: string) {
    forall i :: 0 <= i < |s| ==> IsSpace(s[i])
  }

  function TrimLeft(s: string): string {
    if s != "" && IsSpace(s[0]) then TrimLeft(s[1..]) else s
  }

  function TrimRight(s: string): string {
    if s != "" && IsSpace(s[|s| - 1]) then TrimRight(s[..|s| - 1]) else s
  }

  function TrimSpace(s: string): string {
    TrimRight(TrimLeft(s))
  }

  predicate Trimmed(s: string) {
    s != "" ==> !IsSpace(s[0]) && !IsSpace(s[|s| - 1])
  }

  lemma {:induction false} TrimLeftParts(s: string) returns (lead: string)
    ensures s == lead + TrimLeft(s) && Blank(lead)
    ensures TrimLeft(s) != "" ==> !IsSpace(TrimLeft(s)[0])
    decreases |s|
  {
    lead := "";
    if s != "" && IsSpace(s[0]) {
      var rest := TrimLeftParts(s[1..]);
      lead := [s[0]] + rest;
      assert s == [s[0]] + s[1..];
    }
  }

  lemma {:induction false} TrimRightParts(s: string) returns (tail: string)
    ensures s == TrimRight(s) + tail && Blank(tail)
    ensures TrimRight(s) != "" ==> !IsSpace(TrimRight(s)[|TrimRight(s)| - 1])
    decreases |s|
  {
    tail := "";
    if s != "" && IsSpace(s[|s| - 1]) {
      var rest := TrimRightParts(s[..|s| - 1]);
      tail := rest + [s[|s| - 1]];
      assert s == s[..|s| - 1] + [s[|s| - 1]];
    }
  }

  /** Trimming removes a blank prefix and a blank suffix, and nothing else. */
  lemma TrimParts(s: string) returns (lead: string, tail: string)
    ensures s == lead + TrimSpace(s) + tail && Blank(lead) && Blank(tail)
    ensures Trimmed(TrimSpace(s))
    ensures Blank(s) <==> TrimSpace(s) == ""
  {
    lead := TrimLeftParts(s);
    tail := TrimRightParts(TrimLeft(s));
    var m := TrimSpace(s);
    assert s == lead + (m + tail) == lead + m + tail;
    if m != "" {
      assert TrimLeft(s)[0] == m[0];
      assert s[|lead|] == m[0];
    }
  }

  lemma {:induction false} BlankTrimsLeft(s: string)
    requires Blank(s)
    ensures TrimLeft(s) == ""
    decreases |s|
  {
    if s != "" {
      BlankTrimsLeft(s[1..]);
    }
  }

  /** The trimmed middle is determined by the blank margins around it. */
  lemma {:induction false} TrimUnique(lead: string, middle: string, tail: string)
    requires Blank(lead) && Blank(tail) && Trimmed(middle)
    ensures TrimSpace(lead + middle + tail) == middle
    decreases |lead| + |tail|
  {
    var s := lead + middle + tail;
    if lead != "" {
      assert s[1..] == lead[1..] + middle + tail;
      TrimUnique(lead[1..], middle, tail);
    } else if middle == "" {
      assert s == tail;
      BlankTrimsLeft(s);
    } else {
      assert s[0] == middle[0];
      assert TrimLeft(s) == s;
      TrimRightUnique(middle, tail);
      assert s == middle + tail;
    }
  }

  lemma {:induction false} TrimRightUnique(middle: string, tail: string)
    requires Blank(tail) && Trimmed(middle) && middle != ""
    ensures TrimRight(middle + tail) == middle
    decreases |tail|
  {
    var s := middle + tail;
    if tail != "" {
      assert s[..|s| - 1] == middle + tail[..|tail| - 1];
      assert s[|s| - 1] == tail[|tail| - 1];
      TrimRightUnique(middle, tail[..|tail| - 1]);
    } else {
      assert s == middle;
    }
  }

  /** Length of the run of non-space characters that `s` starts with. */
  function WordLength(s: string): (n: nat)
    ensures n <= |s|
    ensures forall i :: 0 <= i < n ==> !IsSpace(s[i])
    ensures n < |s| ==> IsSpace(s[n])
  {
    if s == "" || IsSpace(s[0]) then 0 else 1 + WordLength(s[1..])
  }

  /** The words of `s`: its maximal runs of characters that are not white space. */
  function Fields(s: string): (words: seq<string>)
    ensures forall i :: 0 <= i < |words| ==> words[i] != "" && forall c :: c in words[i] ==> !IsSpace(c)
    decreases |s|
  {
    if s == "" then []
    else if IsSpace(s[0]) then Fields(s[1..])
    else
      var n := WordLength(s);
      [s[..n]] + Fields(s[n..])
  }

  function Upper(c: char): char {
    if 'a' <= c <= 'z' then (c as int - 32) as char else c
  }

  function UpperAll(s: string): (u: string)
    ensures |u| == |s|
    ensures forall i :: 0 <= i < |s| ==> u[i] == Upper(s[i])
  {
    if s == "" then "" else [Upper(s[0])] + UpperAll(s[1..])
  }

  predicate EqualFold(a: string, b: string) {
    UpperAll(a) == UpperAll(b)
  }

  // ---- splitting and joining ----

  /** `strings.Split` by one byte: always at least one part, and no part holds the byte. */
  function SplitOn(s: string, sep: char): (parts: seq<string>)
    ensures parts != []
    ensures forall p :: p in parts ==> sep !in p
  {
    if s == "" then [""]
    else
      var rest := SplitOn(s[1..], sep);
      if s[0] == sep then [""] + rest else [[s[0]] + rest[0]] + rest[1..]
  }

  function JoinWith(parts: seq<string>, sep: char): string {
    if parts == [] then ""
    else if |parts| == 1 then parts[0]
    else parts[0] + [sep] + JoinWith(parts[1..], sep)
  }

  lemma {:induction false} SplitOnePart(part: string, sep: char)
    requires sep !in part
    ensures SplitOn(part, sep) == [part]
    decreases |part|
  {
    if part != "" {
      SplitOnePart(part[1..], sep);
      assert [part[0]] + part[1..] == part;
    }
  }

  lemma {:induction false} SplitFirstPart(part: string, sep: char, rest: string)
    requires sep !in part
    ensures SplitOn(part + [sep] + rest, sep) == [part] + SplitOn(rest, sep)
    decreases |part|
  {
    var s := part + [sep] + rest;
    if part == "" {
      assert s[1..] == rest;
    } else {
      assert s[1..] == part[1..] + [sep] + rest;
      SplitFirstPart(part[1..], sep, rest);
      assert [part[0]] + part[1..] == part;
    }
  }

  /** Splitting undoes joining. */
  lemma {:induction false} SplitJoin(parts: seq<string>, sep: char)
    requires parts != [] && forall p :: p in parts ==> sep !in p
    ensures SplitOn(JoinWith(parts, sep), sep) == parts
    decreases |parts|
  {
    if |parts| == 1 {
      SplitOnePart(parts[0], sep);
    } else {
      SplitJoin(parts[1..], sep);
      SplitFirstPart(parts[0], sep, JoinWith(parts[1..], sep));
    }
  }
}
