/** Slash-separated file paths: `filepath.Clean`, `Dir` and `Base` on Linux. */
module Paths {
  import opened Text

  predicate IsAbs(path: string) {
    path != "" && path[0] == '/'
  }

  /** Follows path elements from the directory `at`; a rooted walk cannot leave the root. */
  function Walk(elements: seq<string>, at: seq<string>, rooted: bool): seq<string> {
    if elements == [] then at
    else Walk(elements[1..], Enter(at, elements[0], rooted), rooted)
  }

  function Enter(at: seq<string>, element: string, rooted: bool): seq<string> {
    if element == "" || element == "." then at
    else if element != ".." then at + [element]
    else if at != [] && at[|at| - 1] != ".." then at[..|at| - 1]
    else if rooted then at
    else at + [element]
  }

  /** The directory names that a path walks into. */
  function Components(path: string): seq<string> {
    Walk(SplitOn(path, '/'), [], IsAbs(path))
  }

  function Clean(path: string): string {
    if IsAbs(path) then "/" + JoinWith(Components(path), '/')
    else if Components(path) == [] then "."
    else JoinWith(Components(path), '/')
  }

  /** The part of a path behind its last slash. */
  function LastElement(path: string): string {
    if path == "" || path[|path| - 1] == '/' then ""
    else LastElement(path[..|path| - 1]) + [path[|path| - 1]]
  }

  function StripSlashes(path: string): string {
    if path != "" && path[|path| - 1] == '/' then StripSlashes(path[..|path| - 1]) else path
  }

  function Base(path: string): string {
    if path == "" then "."
    else if StripSlashes(path) == "" then "/"
    else LastElement(StripSlashes(path))
  }

  function Dir(path: string): (d: string)
    ensures IsAbs(path) ==> IsAbs(d)
  {
    LastElementLength(path);
    assert IsAbs(path) ==> |LastElement(path)| < |path|;
    Clean(path[..|path| - |LastElement(path)|])
  }

  lemma {:induction false} LastElementLength(path: string)
    ensures |LastElement(path)| <= |path| && (IsAbs(path) ==> |LastElement(path)| < |path|)
    ensures path[|path| - |LastElement(path)|..] == LastElement(path)
    decreases |path|
  {
    if path != "" && path[|path| - 1] != '/' {
      LastElementLength(path[..|path| - 1]);
    }
  }

  /** `ResolveFile` with an empty default directory: what it accepts. */
  predicate Resolvable(path: string) {
    && path != ""
    && (IsAbs(path) || (Components(path) != [] && Components(path)[0] != ".."))
  }

  // ---- the split of an absolute path into a location and a file name ----

  /** Names that a walk pushes. */
  predicate IsName(element: string) {
    element != "" && element != "." && element != ".." && '/' !in element
  }

  predicate AllNames(at: seq<string>) {
    forall i :: 0 <= i < |at| ==> IsName(at[i])
  }

  lemma {:induction false} WalkConcat(a: seq<string>, b: seq<string>, at: seq<string>, rooted: bool)
    ensures Walk(a + b, at, rooted) == Walk(b, Walk(a, at, rooted), rooted)
    decreases |a|
  {
    if a == [] {
      assert a + b == b;
    } else {
      assert (a + b)[1..] == a[1..] + b;
      WalkConcat(a[1..], b, Enter(at, a[0], rooted), rooted);
    }
  }

  lemma {:induction false} WalkNames(names: seq<string>, at: seq<string>, rooted: bool)
    requires AllNames(names)
    ensures Walk(names, at, rooted) == at + names
    decreases |names|
  {
    if names != [] {
      WalkNames(names[1..], at + [names[0]], rooted);
      assert at + [names[0]] + names[1..] == at + names;
    }
  }

  lemma {:induction false} RootedWalkHasNames(elements: seq<string>, at: seq<string>)
    requires AllNames(at) && forall e :: e in elements ==> '/' !in e
    ensures AllNames(Walk(elements, at, true))
    decreases |elements|
  {
    if elements != [] {
      RootedWalkHasNames(elements[1..], Enter(at, elements[0], true));
    }
  }

  lemma {:induction false} SplitConcat(a: string, b: string)
    ensures SplitOn(a + "/" + b, '/') == SplitOn(a, '/') + SplitOn(b, '/')
    decreases |a|
  {
    var s := a + "/" + b;
    if a == "" {
      assert s[1..] == b;
    } else {
      assert s[1..] == a[1..] + "/" + b;
      SplitConcat(a[1..], b);
    }
  }

  /** Behind a path, one more element is one more step. */
  lemma ComponentsJoin(path: string, element: string)
    requires IsAbs(path) && '/' !in element
    ensures Components(path + "/" + element) == Enter(Components(path), element, true)
  {
    SplitConcat(path, element);
    SplitOnePart(element, '/');
    WalkConcat(SplitOn(path, '/'), [element], [], true);
    assert [element][1..] == [];
  }

  /** Cleaning changes the spelling of a path and not where it leads. */
  lemma CleanLeadsToTheSame(path: string)
    requires IsAbs(path)
    ensures Components(Clean(path)) == Components(path)
  {
    var at := Components(path);
    RootedWalkHasNames(SplitOn(path, '/'), []);
    if at == [] {
      RootIsEmpty();
      assert "/" + JoinWith(at, '/') == "/";
    } else {
      hide Walk, IsName, Components;
      RootedNames(at);
    }
  }

  lemma RootIsEmpty()
    ensures Components("/") == []
  {
    SplitConcat("", "");
    assert "" + "/" + "" == "/";
    assert Walk(["", ""], [], true) == Walk([""], [], true) == [];
  }

  lemma {:induction false} RootedNames(at: seq<string>)
    requires at != [] && AllNames(at)
    ensures Components("/" + JoinWith(at, '/')) == at
  {
    SplitConcat("", JoinWith(at, '/'));
    assert "" + "/" + JoinWith(at, '/') == "/" + JoinWith(at, '/');
    SplitJoin(at, '/');
    WalkConcat([""], at, [], true);
    WalkNames(at, [], true);
    assert Walk([""], [], true) == [];
    hide Walk, IsName, SplitOn, JoinWith;
    assert [] + at == at;
  }

  lemma {:induction false} LastElementHasNoSlash(path: string)
    ensures '/' !in LastElement(path)
    decreases |path|
  {
    if path != "" && path[|path| - 1] != '/' { LastElementHasNoSlash(path[..|path| - 1]); }
  }

  lemma {:induction false} BeforeLastElement(path: string)
    requires IsAbs(path)
    ensures var n := |path| - |LastElement(path)|; 1 <= n <= |path| && path[n - 1] == '/'
    decreases |path|
  {
    if path[|path| - 1] != '/' { BeforeLastElement(path[..|path| - 1]); }
  }

  /** A slash at the end adds no step. */
  lemma SlashAddsNothing(path: string)
    requires IsAbs(path)
    ensures Components(path + "/") == Components(path)
  {
    ComponentsJoin(path, "");
    assert path + "/" + "" == path + "/";
  }

  /** A path leads to its directory and then takes its last element. */
  lemma PathSteps(path: string)
    requires IsAbs(path)
    ensures Components(path) == Enter(Components(Dir(path)), LastElement(path), true)
  {
    hide Walk, Enter, SplitOn, Components, Clean, LastElement;
    LastElementLength(path);
    BeforeLastElement(path);
    LastElementHasNoSlash(path);
    var last := LastElement(path);
    var n := |path| - |last|;
    DirLeadsToTheSame(path);
    if n == 1 {
      assert path == "/" + last && path[..1] == "/";
      StepFromRoot(last);
    } else {
      var head := path[..n - 1];
      assert path == head + "/" + last && path[..n] == head + "/";
      ComponentsJoin(head, last);
      SlashAddsNothing(head);
    }
  }

  lemma DirLeadsToTheSame(path: string)
    requires IsAbs(path) && |LastElement(path)| < |path|
    ensures Components(Dir(path)) == Components(path[..|path| - |LastElement(path)|])
  {
    hide Components, Clean, LastElement;
    CleanLeadsToTheSame(path[..|path| - |LastElement(path)|]);
  }

  lemma StepFromRoot(element: string)
    requires '/' !in element
    ensures Components("/" + element) == Enter(Components("/"), element, true)
  {
    assert "/" + element == "" + "/" + element && "/" == "" + "/" + "";
    SplitConcat("", element);
    SplitConcat("", "");
    SplitOnePart(element, '/');
    WalkConcat([""], [element], [], true);
    assert Walk([""], [], true) == [] && [element][1..] == [];
    assert Walk(["", ""], [], true) == Walk([""], [], true);
  }

  lemma {:induction false} StripKeepsComponents(path: string)
    requires IsAbs(path) && StripSlashes(path) != ""
    ensures IsAbs(StripSlashes(path)) && Components(StripSlashes(path)) == Components(path)
    decreases |path|
  {
    if path[|path| - 1] == '/' {
      var head := path[..|path| - 1];
      assert path == head + "/";
      StripKeepsComponents(head);
      SlashAddsNothing(head);
    }
  }

  lemma {:induction false} OnlySlashes(path: string)
    requires IsAbs(path) && StripSlashes(path) == ""
    ensures Components(path) == []
    decreases |path|
  {
    var head := path[..|path| - 1];
    assert path[|path| - 1] == '/' && path == head + "/";
    if head == "" {
      assert SplitOn("/", '/') == ["", ""];
      assert Walk(["", ""], [], true) == Walk([""], [], true) == [];
    } else {
      OnlySlashes(head);
      SlashAddsNothing(head);
    }
  }

  /** What the consumer of a location and a file name opens. */
  function Joined(path: string): string {
    Dir(path) + "/" + Base(path)
  }

  predicate EndsInSlash(path: string) {
    path != "" && path[|path| - 1] == '/'
  }

  /**
   Main result: a location and a file name joined again lead to the split path exactly when the path
   does not end in a slash behind a name.
   */
  lemma SplitPathLeadsToTheSame(path: string)
    requires IsAbs(path)
    ensures Components(Joined(path)) == Components(path)
        <==> (EndsInSlash(path)
              ==> Base(path) == "/" || Base(path) == "." || (Base(path) == ".." && Clean(path) == "/"))
  {
    PathSteps(path);
    if !EndsInSlash(path) {
      LastElementHasNoSlash(path);
      ComponentsJoin(Dir(path), Base(path));
    } else {
      assert LastElement(path) == "";
      assert Components(Dir(path)) == Components(path);
      RootedWalkHasNames(SplitOn(path, '/'), []);
      if StripSlashes(path) == "" {
        OnlySlashes(path);
        SlashAddsNothing(Dir(path));
        SlashAddsNothing(Dir(path) + "/");
      } else {
        BaseOfStripped(path);
        ComponentsJoin(Dir(path), Base(path));
        CleanRoot(path);
      }
    }
  }

  lemma BaseOfStripped(path: string)
    requires IsAbs(path) && StripSlashes(path) != ""
    ensures '/' !in Base(path) && Base(path) != "" && Base(path) != "/"
  {
    StrippedEnd(path);
    LastElementHasNoSlash(StripSlashes(path));
  }

  lemma {:induction false} StrippedEnd(path: string)
    ensures !EndsInSlash(StripSlashes(path))
    decreases |path|
  {
    if path != "" && path[|path| - 1] == '/' { StrippedEnd(path[..|path| - 1]); }
  }

  lemma CleanRoot(path: string)
    requires IsAbs(path)
    ensures Clean(path) == "/" <==> Components(path) == []
  {
    RootedWalkHasNames(SplitOn(path, '/'), []);
    var at := Components(path);
    if at != [] {
      assert IsName(at[0]);
      assert JoinWith(at, '/') != "";
    }
  }

  /** With a trailing slash behind a name the two differ. */
  lemma TrailingSlashShows()
    ensures Components(Joined("/a/")) != Components("/a/")
  {
    var path := "/a/";
    assert path[..2] == "/a" && path[..2][..1] == "/";
    assert StripSlashes(path) == "/a";
    assert LastElement("/") == "" && LastElement("/a") == "a";
    SplitPathLeadsToTheSame(path);
  }

  // ---- clean paths ----

  lemma {:induction false} JoinAppend(parts: seq<string>, last: string)
    requires parts != []
    ensures JoinWith(parts + [last], '/') == JoinWith(parts, '/') + "/" + last
    decreases |parts|
  {
    if |parts| == 1 {
      assert (parts + [last])[1..] == [last];
    } else {
      assert (parts + [last])[1..] == parts[1..] + [last];
      JoinAppend(parts[1..], last);
    }
  }

  /** A name behind a clean directory gives a clean path. */
  lemma CleanJoin(dir: string, name: string)
    requires IsAbs(dir) && Clean(dir) == dir && dir != "/" && IsName(name)
    ensures Clean(dir + "/" + name) == dir + "/" + name
    ensures Components(dir + "/" + name) == Components(dir) + [name]
  {
    ComponentsJoin(dir, name);
    CleanRoot(dir);
    JoinAppend(Components(dir), name);
    hide Components, JoinWith;
    assert "/" + (JoinWith(Components(dir), '/') + "/" + name) == dir + "/" + name;
  }

  lemma {:induction false} WalkHasElements(elements: seq<string>, at: seq<string>, rooted: bool)
    requires forall e :: e in at ==> e != "" && '/' !in e
    requires forall e :: e in elements ==> '/' !in e
    ensures forall e :: e in Walk(elements, at, rooted) ==> e != "" && '/' !in e
    decreases |elements|
  {
    if elements != [] { WalkHasElements(elements[1..], Enter(at, elements[0], rooted), rooted); }
  }

  lemma CleanKeepsRelative(path: string)
    requires !IsAbs(path)
    ensures !IsAbs(Clean(path))
  {
    WalkHasElements(SplitOn(path, '/'), [], false);
    var parts := Components(path);
    if parts != [] {
      assert parts[0] in parts;
      assert JoinWith(parts, '/')[0] == parts[0][0];
    }
  }
}
