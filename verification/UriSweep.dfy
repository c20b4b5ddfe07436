/** Removing dot segments and empty components from a path. */
module UriSweep {
  import opened MountPaths

  /** Up to the first NUL. */
  function CString(s: string): (r: string)
    ensures r <= s && '\0' !in r
    ensures |r| < |s| ==> s[|r|] == '\0'
    decreases |s|
  {
    if s == "" || s[0] == '\0' then "" else [s[0]] + CString(s[1..])
  }

  /** One component: ".." drops the last one kept, "." and the empty one are skipped. */
  function Push(stack: seq<string>, part: string): seq<string> {
    if part == ".." then (if stack == [] then [] else stack[..|stack| - 1])
    else if part == "" || part == "." then stack
    else stack + [part]
  }

  function Kept(stack: seq<string>, parts: seq<string>): seq<string>
    decreases |parts|
  {
    if parts == [] then stack else Kept(Push(stack, parts[0]), parts[1..])
  }

  predicate Absolute(s: string) {
    s != "" && s[0] == '/'
  }

  /** Appends a component, after a slash unless one is there or nothing is. */
  function Append(r: string, c: string): string {
    if r != "" && r[|r| - 1] != '/' then r + "/" + c else r + c
  }

  function Render(r: string, cs: seq<string>): string
    decreases |cs|
  {
    if cs == [] then r else Render(Append(r, cs[0]), cs[1..])
  }

  function Sweep(input: string): string {
    var s := CString(input);
    Render(if Absolute(s) then "/" else "", Kept([], Split(s, 0)))
  }

  // ---------- components ----------

  /** A component that stays: not empty, not a dot segment, without a slash. */
  predicate Plain(c: string) {
    c != "" && c != "." && c != ".." && '/' !in c && '\0' !in c
  }

  predicate AllPlain(cs: seq<string>) {
    forall i :: 0 <= i < |cs| ==> Plain(cs[i])
  }

  predicate Slashless(cs: seq<string>) {
    forall i :: 0 <= i < |cs| ==> '/' !in cs[i] && '\0' !in cs[i]
  }

  lemma SplitUnfold(s: string, i: nat)
    requires i <= |s|
    ensures var j := NextSlash(s, i); Split(s, i) == [s[i..j]] + if j < |s| then Split(s, j + 1) else []
  {
    hide NextSlash;
  }

  lemma {:induction false} SplitSlashless(s: string, i: nat)
    requires i <= |s| && '\0' !in s
    ensures Slashless(Split(s, i)) && Split(s, i) != []
    decreases |s| - i
  {
    hide Split, NextSlash;
    SplitUnfold(s, i);
    var j := NextSlash(s, i);
    assert '/' !in s[i..j] && '\0' !in s[i..j];
    if j < |s| {
      SplitSlashless(s, j + 1);
    }
  }

  lemma {:induction false} KeptPlain(stack: seq<string>, parts: seq<string>)
    requires AllPlain(stack) && Slashless(parts)
    ensures AllPlain(Kept(stack, parts))
    decreases |parts|
  {
    if parts != [] {
      assert AllPlain(Push(stack, parts[0]));
      KeptPlain(Push(stack, parts[0]), parts[1..]);
    }
  }

  lemma {:induction false} KeptOfPlain(stack: seq<string>, cs: seq<string>)
    requires AllPlain(cs)
    ensures Kept(stack, cs) == stack + cs
    decreases |cs|
  {
    if cs != [] {
      assert Plain(cs[0]);
      KeptOfPlain(stack + [cs[0]], cs[1..]);
      assert stack + [cs[0]] + cs[1..] == stack + cs;
    } else {
      assert stack + cs == stack;
    }
  }

  // ---------- rendering ----------

  /** Components separated by slashes. */
  function Joined(cs: seq<string>): string {
    if |cs| == 0 then "" else if |cs| == 1 then cs[0] else cs[0] + "/" + Joined(cs[1..])
  }

  function Separator(r: string): string {
    if r != "" && r[|r| - 1] != '/' then "/" else ""
  }

  lemma {:induction false} RenderIsJoined(r: string, cs: seq<string>)
    requires AllPlain(cs)
    ensures Render(r, cs) == if cs == [] then r else r + Separator(r) + Joined(cs)
    decreases |cs|
  {
    hide Joined;
    if cs != [] {
      var next := Append(r, cs[0]);
      AppendPlain(r, cs[0]);
      RenderIsJoined(next, cs[1..]);
      if |cs| == 1 {
        JoinedOne(cs);
      } else {
        JoinedStep(r + Separator(r), cs);
      }
    }
  }

  lemma AppendPlain(r: string, c: string)
    requires Plain(c)
    ensures Append(r, c) == r + Separator(r) + c && Separator(Append(r, c)) == "/"
  {
    assert Append(r, c)[|Append(r, c)| - 1] == c[|c| - 1];
  }

  lemma JoinedOne(cs: seq<string>)
    requires |cs| == 1
    ensures Joined(cs) == cs[0]
  {
  }

  lemma JoinedStep(front: string, cs: seq<string>)
    requires |cs| > 1
    ensures front + Joined(cs) == (front + cs[0] + "/") + Joined(cs[1..])
  {
    assert front + (cs[0] + "/" + Joined(cs[1..])) == (front + cs[0] + "/") + Joined(cs[1..]);
  }

  /** The swept path: a leading slash when the input has one, then plain components separated by slashes. */
  lemma SweepShape(input: string)
    ensures var s := CString(input); var cs := Kept([], Split(s, 0));
            AllPlain(cs) && Sweep(input) == (if Absolute(s) then "/" else "") + Joined(cs)
  {
    hide CString, Split, Kept, Render, Joined;
    var s := CString(input);
    SplitSlashless(s, 0);
    KeptPlain([], Split(s, 0));
    RenderIsJoined(if Absolute(s) then "/" else "", Kept([], Split(s, 0)));
    JoinedNothing();
  }

  // ---------- sweeping again ----------

  lemma SplitOne(p: string, i: nat, c: string)
    requires i + |c| <= |p| && p[i..i + |c|] == c && '/' !in c && (i + |c| == |p| || p[i + |c|] == '/')
    ensures Split(p, i) == [c] + if i + |c| < |p| then Split(p, i + |c| + 1) else []
  {
    hide Split, NextSlash;
    SlashAfter(p, i, i + |c|);
    SplitUnfold(p, i);
  }

  lemma {:induction false} SplitJoined(front: string, cs: seq<string>)
    requires cs != [] && AllPlain(cs)
    ensures Split(front + Joined(cs), |front|) == cs
    decreases |cs|
  {
    hide Split;
    var p := front + Joined(cs);
    assert Plain(cs[0]);
    if |cs| == 1 {
      assert p == front + cs[0];
      SplitOne(p, |front|, cs[0]);
    } else {
      var longer := front + cs[0] + "/";
      JoinedStep(front, cs);
      assert p[|front|..|front| + |cs[0]|] == cs[0];
      SplitOne(p, |front|, cs[0]);
      SplitJoined(longer, cs[1..]);
    }
  }

  lemma {:induction false} JoinedPlain(cs: seq<string>)
    requires AllPlain(cs)
    ensures '\0' !in Joined(cs) && (cs != [] ==> Joined(cs) != "" && Joined(cs)[0] != '/')
    decreases |cs|
  {
    if cs != [] {
      assert Plain(cs[0]);
      assert Joined(cs)[0] == cs[0][0];
      if |cs| > 1 {
        JoinedPlain(cs[1..]);
      }
    }
  }

  lemma {:induction false} CStringSame(s: string)
    requires '\0' !in s
    ensures CString(s) == s
    decreases |s|
  {
    if s != "" {
      assert forall k :: 0 <= k < |s[1..]| ==> s[1..][k] == s[k + 1];
      CStringSame(s[1..]);
    }
  }

  /** The components of a rendered path are the ones it was rendered from. */
  lemma RenderedComponents(absolute: bool, cs: seq<string>)
    requires AllPlain(cs)
    ensures var p := (if absolute then "/" else "") + Joined(cs);
            CString(p) == p && Absolute(p) == absolute && Kept([], Split(p, 0)) == cs
  {
    hide CString, Kept, Split, Joined;
    var p := (if absolute then "/" else "") + Joined(cs);
    JoinedPlain(cs);
    CStringSame(p);
    KeptOfPlain([], cs);
    if absolute {
      SplitAbsolute(cs);
    } else if cs != [] {
      assert "" + Joined(cs) == p;
      SplitJoined("", cs);
    } else {
      SplitNothing();
    }
    JoinedNothing();
  }

  lemma JoinedNothing()
    ensures Joined([]) == ""
  {
  }

  lemma SplitNothing()
    ensures Kept([], Split("", 0)) == []
  {
    assert Split("", 0) == [""];
  }

  lemma SplitAbsolute(cs: seq<string>)
    requires AllPlain(cs)
    ensures Kept([], Split("/" + Joined(cs), 0)) == cs
  {
    var p := "/" + Joined(cs);
    assert NextSlash(p, 0) == 0 && p[0..0] == "";
    assert Split(p, 0) == [""] + Split(p, 1);
    if cs == [] {
      assert p == "/" && Split(p, 1) == [""];
      assert Split(p, 0) == ["", ""];
      assert Kept([], ["", ""]) == Kept([], ["", ""][1..]) && ["", ""][1..] == [""] &&
             Kept([], [""]) == Kept([], [""][1..]);
    } else {
      SplitJoined("/", cs);
      assert Split(p, 0)[1..] == cs;
      KeptOfPlain([], cs);
    }
  }

  /** Sweeping a swept path changes nothing, and the result is absolute exactly when the input is. */
  lemma SweepIsIdempotent(input: string)
    ensures Sweep(Sweep(input)) == Sweep(input)
    ensures Absolute(Sweep(input)) == Absolute(CString(input))
  {
    hide CString, Kept, Split, Joined, Render;
    var s := CString(input);
    var cs := Kept([], Split(s, 0));
    SweepShape(input);
    RenderedComponents(Absolute(s), cs);
    SweepShape(Sweep(input));
  }

  /** A path of plain components, absolute or not, is kept as it is. */
  lemma PlainPathsAreUnchanged(absolute: bool, cs: seq<string>)
    requires AllPlain(cs)
    ensures var p := (if absolute then "/" else "") + Joined(cs); Sweep(p) == p
  {
    hide CString, Kept, Split, Joined, Render;
    RenderedComponents(absolute, cs);
    SweepShape((if absolute then "/" else "") + Joined(cs));
  }

  /** The swept path has no empty, "." or ".." component. */
  lemma SweptComponentsArePlain(input: string)
    ensures Sweep(input) != "" && Sweep(input) != "/" ==>
              AllPlain(Split(Sweep(input), if Absolute(Sweep(input)) then 1 else 0))
  {
    hide CString, Kept, Split, Joined, Render, Absolute;
    var s := CString(input);
    var cs := Kept([], Split(s, 0));
    SweepShape(input);
    SweepIsIdempotent(input);
    JoinedNothing();
    if cs != [] {
      SplitJoined(if Absolute(s) then "/" else "", cs);
    }
  }

  // ---------- length ----------

  /** Length of the components with a slash each. */
  function Weight(cs: seq<string>): nat {
    if cs == [] then 0 else Weight(cs[..|cs| - 1]) + |cs[|cs| - 1]| + 1
  }

  lemma {:induction false} WeightFront(cs: seq<string>)
    requires cs != []
    ensures Weight(cs) == |cs[0]| + 1 + Weight(cs[1..])
    decreases |cs|
  {
    if |cs| > 1 {
      WeightFront(cs[..|cs| - 1]);
      assert cs[..|cs| - 1][1..] == cs[1..][..|cs[1..]| - 1];
    }
  }

  lemma {:induction false} KeptWeight(stack: seq<string>, parts: seq<string>)
    ensures Weight(Kept(stack, parts)) <= Weight(stack) + Weight(parts)
    decreases |parts|
  {
    if parts != [] {
      PushWeight(stack, parts[0]);
      KeptWeight(Push(stack, parts[0]), parts[1..]);
      WeightFront(parts);
    }
  }

  lemma PushWeight(stack: seq<string>, part: string)
    ensures Weight(Push(stack, part)) <= Weight(stack) + |part| + 1
  {
    assert (stack + [part])[..|stack|] == stack;
  }

  lemma {:induction false} SplitWeight(s: string, i: nat)
    requires i <= |s|
    ensures Weight(Split(s, i)) == |s| - i + 1
    decreases |s| - i
  {
    hide Split, NextSlash, Weight;
    SplitUnfold(s, i);
    var j := NextSlash(s, i);
    WeightFront(Split(s, i));
    if j < |s| {
      SplitWeight(s, j + 1);
      assert Split(s, i)[1..] == Split(s, j + 1);
    } else {
      assert Split(s, i)[1..] == [];
      WeightNothing();
    }
  }

  lemma {:induction false} JoinedWeight(cs: seq<string>)
    ensures |Joined(cs)| == if cs == [] then 0 else Weight(cs) - 1
    decreases |cs|
  {
    if cs != [] {
      WeightFront(cs);
      if |cs| > 1 {
        JoinedWeight(cs[1..]);
      }
    }
  }

  /** Sweeping never lengthens a path. */
  lemma SweepIsNoLonger(input: string)
    ensures |Sweep(input)| <= |CString(input)| <= |input|
  {
    hide CString, Joined, Render, Weight;
    var s := CString(input);
    var parts := Split(s, 0);
    SweepShape(input);
    SplitWeight(s, 0);
    JoinedWeight(Kept([], parts));
    if Absolute(s) {
      assert NextSlash(s, 0) == 0 && s[0..0] == "";
      assert parts[0] == "" && parts[1..] == Split(s, 1);
      SplitWeight(s, 1);
      KeptWeight([], parts[1..]);
      WeightNothing();
      assert Kept([], parts) == Kept([], parts[1..]);
    } else {
      KeptWeight([], parts);
      WeightNothing();
    }
  }

  lemma WeightNothing()
    ensures Weight([]) == 0
  {
  }

  // ---------- where this differs from section 5.2.4 of RFC 3986 ----------

  lemma {:induction false} SplitAppend(a: string, b: string, i: nat)
    requires i <= |a|
    ensures Split(a + "/" + b, i) == Split(a, i) + Split(a + "/" + b, |a| + 1)
    decreases |a| - i
  {
    hide Split, NextSlash;
    var p := a + "/" + b;
    var j := NextSlash(a, i);
    assert p[i..j] == a[i..j] && '/' !in a[i..j];
    SplitUnfold(a, i);
    SplitOne(p, i, a[i..j]);
    if j < |a| {
      SplitAppend(a, b, j + 1);
    }
  }

  /** A trailing slash is dropped; the RFC keeps it. */
  lemma TrailingSlashIsDropped(s: string)
    requires s != "" && '\0' !in s
    ensures Sweep(s + "/") == Sweep(s)
  {
    hide Render;
    var p := s + "/";
    CStringSame(s);
    CStringSame(p);
    SplitAppend(s, "", 0);
    assert s + "/" + "" == p;
    assert Split(p, |p|) == [""];
    KeptAppend([], Split(s, 0), [""]);
    assert Kept(Kept([], Split(s, 0)), [""]) == Kept(Kept([], Split(s, 0)), [""][1..]);
  }

  lemma {:induction false} KeptAppend(stack: seq<string>, a: seq<string>, b: seq<string>)
    ensures Kept(stack, a + b) == Kept(Kept(stack, a), b)
    decreases |a|
  {
    if a == [] {
      assert a + b == b;
    } else {
      assert (a + b)[1..] == a[1..] + b;
      KeptAppend(Push(stack, a[0]), a[1..], b);
    }
  }

  /** A component followed by ".." cancels out. */
  lemma ParentCancelsComponent(a: string, c: string)
    requires a != "" && '\0' !in a && Plain(c)
    ensures Sweep(a + "/" + c + "/..") == Sweep(a)
  {
    hide Render, Split, Kept;
    var p := a + "/" + c;
    var q := p + "/..";
    CStringSame(a);
    CStringSame(q);
    assert p + "/" + ".." == q;
    SplitAppend(p, "..", 0);
    SplitAppend(a, c, 0);
    SplitOne(q, |p| + 1, "..");
    SplitOne(p, |a| + 1, c);
    assert Split(q, 0) == Split(a, 0) + [c, ".."];
    KeptAppend([], Split(a, 0), [c, ".."]);
    KeptPair(Kept([], Split(a, 0)), c);
    assert Absolute(q) == Absolute(a);
  }

  lemma KeptPair(stack: seq<string>, c: string)
    requires Plain(c)
    ensures Kept(stack, [c, ".."]) == stack
  {
    assert [c, ".."][1..] == [".."] && [".."][1..] == [];
    assert Kept(stack + [c], [".."]) == Kept(Push(stack + [c], ".."), []);
  }

  // ---------- dot segments and empty components anywhere ----------

  lemma {:induction false} SplitShift(front: string, b: string, i: nat)
    requires i <= |b|
    ensures Split(front + b, |front| + i) == Split(b, i)
    decreases |b| - i
  {
    hide Split, NextSlash;
    var p := front + b;
    var j := NextSlash(b, i);
    SplitUnfold(b, i);
    assert p[|front| + i..|front| + j] == b[i..j];
    SplitOne(p, |front| + i, b[i..j]);
    if j < |b| {
      SplitShift(front, b, j + 1);
    }
  }

  lemma SplitConcat(a: string, b: string)
    ensures Split(a + "/" + b, 0) == Split(a, 0) + Split(b, 0)
  {
    hide Split;
    SplitAppend(a, b, 0);
    SplitShift(a + "/", b, 0);
  }

  /** Components that change no stack can be left out between two slashes. */
  lemma MiddleIsDropped(a: string, m: string, b: string)
    requires '\0' !in a && '\0' !in m && '\0' !in b
    requires forall stack :: Kept(stack, Split(m, 0)) == stack
    ensures Sweep(a + "/" + m + "/" + b) == Sweep(a + "/" + b)
  {
    hide Render, Split, Kept;
    var p, q := a + "/" + m + "/" + b, a + "/" + b;
    CStringSame(p);
    CStringSame(q);
    SplitConcat(a + "/" + m, b);
    SplitConcat(a, m);
    SplitConcat(a, b);
    var before := Kept([], Split(a, 0));
    KeptAppend([], Split(a, 0) + Split(m, 0), Split(b, 0));
    KeptAppend([], Split(a, 0), Split(m, 0));
    KeptAppend([], Split(a, 0), Split(b, 0));
    assert p[0] == q[0];
  }

  lemma SplitWord(m: string)
    requires '/' !in m
    ensures Split(m, 0) == [m]
  {
    hide Split;
    SplitOne(m, 0, m);
  }

  lemma KeptWord(stack: seq<string>, part: string)
    ensures Kept(stack, [part]) == Push(stack, part)
  {
  }

  /** "." is no step, and neither is an empty component. */
  lemma DotIsDropped(a: string, b: string)
    requires '\0' !in a && '\0' !in b
    ensures Sweep(a + "/./" + b) == Sweep(a + "/" + b) && Sweep(a + "//" + b) == Sweep(a + "/" + b)
  {
    hide Sweep, Split, Kept;
    SplitWord(".");
    SplitWord("");
    forall stack ensures Kept(stack, Split(".", 0)) == stack && Kept(stack, Split("", 0)) == stack {
      KeptWord(stack, ".");
      KeptWord(stack, "");
    }
    MiddleIsDropped(a, ".", b);
    MiddleIsDropped(a, "", b);
    assert a + "/" + "." + "/" + b == a + "/./" + b && a + "/" + "" + "/" + b == a + "//" + b;
  }

  /** A plain component and the ".." after it cancel anywhere in the path. */
  lemma ParentCancelsAnywhere(a: string, c: string, b: string)
    requires '\0' !in a && Plain(c) && '\0' !in b
    ensures Sweep(a + "/" + c + "/../" + b) == Sweep(a + "/" + b)
  {
    hide Sweep, Split, Kept;
    var m := c + "/" + "..";
    SplitConcat(c, "..");
    SplitWord(c);
    SplitWord("..");
    forall stack ensures Kept(stack, Split(m, 0)) == stack {
      assert [c] + [".."] == [c, ".."];
      KeptPair(stack, c);
    }
    MiddleIsDropped(a, m, b);
    assert a + "/" + m + "/" + b == a + "/" + c + "/../" + b;
  }

  /** The root is its own parent, and a relative path loses its leading ".." components. */
  lemma LeadingParentIsDropped(b: string)
    requires '\0' !in b
    ensures Sweep("/../" + b) == Sweep("/" + b)
    ensures !Absolute(b) ==> Sweep("../" + b) == Sweep(b) && Sweep("./" + b) == Sweep(b)
  {
    hide Render, Split, Kept;
    CStringSame("/../" + b);
    CStringSame("/" + b);
    CStringSame("../" + b);
    CStringSame("./" + b);
    CStringSame(b);
    SplitConcat("/..", b);
    SplitConcat("", "..");
    SplitConcat("", b);
    SplitConcat("..", b);
    SplitConcat(".", b);
    SplitWord("");
    SplitWord(".");
    SplitWord("..");
    assert "/.." + "/" + b == "/../" + b && "" + "/" + ".." == "/.." && "" + "/" + b == "/" + b;
    assert ".." + "/" + b == "../" + b && "." + "/" + b == "./" + b;
    KeptAppend([], [""] + [".."], Split(b, 0));
    KeptAppend([], [""], [".."]);
    KeptAppend([], [""], Split(b, 0));
    KeptAppend([], [".."], Split(b, 0));
    KeptAppend([], ["."], Split(b, 0));
    KeptWord([], "");
    KeptWord([], ".");
    KeptWord([], "..");
  }

  // ---------- the loops ----------

  method SweepPath(input: string) returns (result: string)
    ensures result == Sweep(input)
  {
    var s := CString(input);
    var parts := Split(s, 0);
    var stack: seq<string> := [];
    for i := 0 to |parts|
      invariant Kept([], parts) == Kept(stack, parts[i..])
    {
      if parts[i] == ".." {
        if |stack| > 0 {
          stack := stack[..|stack| - 1];
        }
      } else if parts[i] != "" && parts[i] != "." {
        stack := stack + [parts[i]];
      }
      assert parts[i..][1..] == parts[i + 1..];
    }
    result := if Absolute(s) then "/" else "";
    ghost var start := result;
    for i := 0 to |stack|
      invariant Render(start, stack) == Render(result, stack[i..])
    {
      if result != "" && result[|result| - 1] != '/' {
        result := result + "/";
      }
      result := result + stack[i];
      assert stack[i..][1..] == stack[i + 1..];
    }
  }
}
