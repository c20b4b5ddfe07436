/** Virtual paths of mounts, and finding the mount of a path. */
module MountPaths {
  import opened Wrappers

  // ---------- valid paths ----------

  /** Index of the next '/' at or after `i`, or the length. */
  function NextSlash(p: string, i: nat): (j: nat)
    requires i <= |p|
    ensures i <= j <= |p|
    ensures j < |p| ==> p[j] == '/'
    ensures forall k :: i <= k < j ==> p[k] != '/'
    decreases |p| - i
  {
    if i == |p| || p[i] == '/' then i else NextSlash(p, i + 1)
  }

  predicate GoodComponent(c: string) {
    c != "" && c != "." && c != ".." && '/' !in c && '\\' !in c
  }

  /** The component-by-component check from index `i` on. */
  predicate ComponentsValid(p: string, i: nat)
    requires i <= |p|
    decreases |p| - i
  {
    var j := NextSlash(p, i);
    p[i..j] != "" && p[i..j] != "." && p[i..j] != ".." && (j == |p| || (j + 1 < |p| && ComponentsValid(p, j + 1)))
  }

  predicate PathValid(p: string) {
    |p| > 1 && p[0] == '/' && '\\' !in p && ComponentsValid(p, 1)
  }

  function Join(cs: seq<string>): string {
    if cs == [] then "" else "/" + cs[0] + Join(cs[1..])
  }

  predicate AllGood(cs: seq<string>) {
    forall i :: 0 <= i < |cs| ==> GoodComponent(cs[i])
  }

  function Split(p: string, i: nat): (cs: seq<string>)
    requires i <= |p|
    decreases |p| - i
  {
    var j := NextSlash(p, i);
    [p[i..j]] + if j < |p| then Split(p, j + 1) else []
  }

  lemma {:induction false} SplitJoins(p: string, i: nat)
    requires 1 <= i <= |p| && p[i - 1] == '/' && ComponentsValid(p, i) && '\\' !in p
    ensures AllGood(Split(p, i)) && Join(Split(p, i)) == p[i - 1..]
    decreases |p| - i
  {
    var j := NextSlash(p, i);
    if j < |p| {
      SplitJoins(p, j + 1);
    }
    assert Split(p, i)[1..] == if j < |p| then Split(p, j + 1) else [];
    assert p[i - 1..] == "/" + p[i..j] + p[j..];
  }

  /** The first component of a joined path ends where the rest begins. */
  lemma FirstComponent(front: string, cs: seq<string>)
    requires cs != [] && AllGood(cs)
    ensures var p, i := front + Join(cs), |front| + 1;
            && p == (front + "/" + cs[0]) + Join(cs[1..]) && i + |cs[0]| <= |p|
            && p[i - 1] == '/' && p[i..i + |cs[0]|] == cs[0] && NextSlash(p, i) == i + |cs[0]|
            && (i + |cs[0]| == |p| <==> |cs| == 1)
  {
    var p, i := front + Join(cs), |front| + 1;
    var j := i + |cs[0]|;
    assert GoodComponent(cs[0]);
    assert p == (front + "/" + cs[0]) + Join(cs[1..]);
    assert p[i..j] == cs[0];
    if |cs| > 1 {
      assert Join(cs[1..])[0] == '/';
      assert p[j] == Join(cs[1..])[0];
    }
    SlashAfter(p, i, j);
  }

  lemma {:induction false} JoinValid(front: string, cs: seq<string>)
    requires cs != [] && AllGood(cs) && '\\' !in front
    ensures var p := front + Join(cs);
            '\\' !in p && |front| + 1 < |p| && p[|front|] == '/' && ComponentsValid(p, |front| + 1)
    decreases |cs|
  {
    hide NextSlash, Join;
    FirstComponent(front, cs);
    assert GoodComponent(cs[0]);
    if |cs| > 1 {
      assert AllGood(cs[1..]);
      JoinValid(front + "/" + cs[0], cs[1..]);
    } else {
      EmptyJoin();
    }
  }

  lemma EmptyJoin()
    ensures Join([]) == ""
  {
  }

  lemma {:induction false} SlashAfter(p: string, i: nat, j: nat)
    requires i <= j <= |p| && '/' !in p[i..j] && (j == |p| || p[j] == '/')
    ensures NextSlash(p, i) == j
    decreases j - i
  {
    if i < j {
      assert p[i] == p[i..j][0];
      assert forall k :: i + 1 <= k < j ==> p[k] == p[i..j][k - i];
      SlashAfter(p, i + 1, j);
    }
  }

  /** The path is a non-empty sequence of good components, each preceded by a slash. */
  predicate Spells(cs: seq<string>, p: string) {
    cs != [] && AllGood(cs) && p == Join(cs)
  }

  lemma ValidIsSpelled(p: string)
    requires PathValid(p)
    ensures Spells(Split(p, 1), p)
  {
    hide ComponentsValid;
    SplitJoins(p, 1);
    assert p[0..] == p;
  }

  lemma SpelledIsValid(cs: seq<string>, p: string)
    requires Spells(cs, p)
    ensures PathValid(p)
  {
    hide ComponentsValid, Join;
    JoinValid("", cs);
    assert "" + Join(cs) == p;
  }

  /** A path is accepted exactly when it is spelled by components none of which is empty, "." or "..", or
      contains a slash or a backslash. */
  lemma ValidPathsAreComponents(p: string)
    ensures PathValid(p) <==> exists cs: seq<string> :: Spells(cs, p)
  {
    hide PathValid, Spells;
    if PathValid(p) {
      ValidIsSpelled(p);
    }
    forall cs: seq<string> | Spells(cs, p) ensures PathValid(p) {
      SpelledIsValid(cs, p);
    }
  }

  // ---------- the mount of a path ----------

  datatype Kind = FileMount | FolderMount

  /** A mounted storage object; `stream` is 0 when there is none. */
  datatype Mount = Mount(path: string, kind: Kind, object_: nat, stream: nat)

  predicate Matches(m: Mount, p: string) {
    m.path <= p && (|m.path| == |p| || p[|m.path|] == '/') && (m.kind == FileMount ==> |m.path| == |p|)
  }

  /** The best of the first `n` mounts, replaced only by a longer one. */
  function BestOf(ms: seq<Mount>, p: string, n: nat): Option<Mount>
    requires n <= |ms|
  {
    if n == 0 then None
    else
      var best := BestOf(ms, p, n - 1);
      var length := if best.Some? then |best.value.path| else 0;
      if Matches(ms[n - 1], p) && |ms[n - 1].path| > length then Some(ms[n - 1]) else best
  }

  predicate PathsDistinct(ms: seq<Mount>) {
    forall i, j :: 0 <= i < j < |ms| ==> ms[i].path != ms[j].path
  }

  predicate PathsValid(ms: seq<Mount>) {
    forall i :: 0 <= i < |ms| ==> PathValid(ms[i].path)
  }

  /** `m` is the longest matching mount, and the only one of its length. */
  predicate Longest(ms: seq<Mount>, p: string, m: Mount) {
    m in ms && Matches(m, p) && forall x :: x in ms && Matches(x, p) ==> x == m || |x.path| < |m.path|
  }

  lemma MatchesNest(m: Mount, x: Mount, p: string)
    requires Matches(m, p) && Matches(x, p) && |m.path| == |x.path|
    ensures m.path == x.path
  {
  }

  /** Position `k` holds a match longer than any other of the first `n`. */
  predicate Leads(ms: seq<Mount>, p: string, n: nat, k: nat)
    requires k < n <= |ms|
  {
    Matches(ms[k], p) && forall i :: 0 <= i < n && i != k && Matches(ms[i], p) ==> |ms[i].path| < |ms[k].path|
  }

  lemma {:induction false} BestIsLongest(ms: seq<Mount>, p: string, n: nat)
    requires PathsDistinct(ms) && PathsValid(ms) && n <= |ms|
    ensures var r := BestOf(ms, p, n);
            && (r.None? ==> forall i :: 0 <= i < n ==> !Matches(ms[i], p))
            && (r.Some? ==> exists k :: 0 <= k < n && ms[k] == r.value && Leads(ms, p, n, k))
  {
    hide Matches, PathValid;
    if n > 0 {
      BestIsLongest(ms, p, n - 1);
      var best := BestOf(ms, p, n - 1);
      assert PathValid(ms[n - 1].path);
      ValidNotEmpty(ms[n - 1].path);
      if best.Some? && Matches(ms[n - 1], p) {
        var k :| 0 <= k < n - 1 && ms[k] == best.value && Leads(ms, p, n - 1, k);
        if |ms[n - 1].path| == |ms[k].path| {
          MatchesNest(ms[n - 1], ms[k], p);
        }
        assert |ms[n - 1].path| > |ms[k].path| ==> Leads(ms, p, n, n - 1);
        assert |ms[n - 1].path| < |ms[k].path| ==> Leads(ms, p, n, k);
      } else if best.Some? {
        var k :| 0 <= k < n - 1 && ms[k] == best.value && Leads(ms, p, n - 1, k);
        assert Leads(ms, p, n, k);
      } else if Matches(ms[n - 1], p) {
        assert Leads(ms, p, n, n - 1);
      }
    }
  }

  lemma ValidNotEmpty(p: string)
    requires PathValid(p)
    ensures |p| > 0
  {
  }

  function FindMount(ms: seq<Mount>, p: string): Option<Mount> {
    BestOf(ms, p, |ms|)
  }

  /** The lookup returns the unique longest mount that matches, and none only when none matches. */
  lemma FindsLongest(ms: seq<Mount>, p: string)
    requires PathsDistinct(ms) && PathsValid(ms)
    ensures FindMount(ms, p).None? ==> forall x :: x in ms ==> !Matches(x, p)
    ensures FindMount(ms, p).Some? ==> Longest(ms, p, FindMount(ms, p).value)
  {
    hide Matches, PathValid, BestOf;
    BestIsLongest(ms, p, |ms|);
  }

  /** The order in which mounts were added does not matter. */
  lemma OrderDoesNotMatter(ms: seq<Mount>, ns: seq<Mount>, p: string)
    requires PathsDistinct(ms) && PathsValid(ms) && PathsDistinct(ns) && PathsValid(ns)
    requires forall x :: x in ms <==> x in ns
    ensures FindMount(ms, p) == FindMount(ns, p)
  {
    hide Matches, PathValid, FindMount, PathsDistinct, PathsValid;
    FindsLongest(ms, p);
    FindsLongest(ns, p);
  }

  /** What follows the mount path, without the slash between. */
  function RelativePath(m: Mount, p: string): string
    requires Matches(m, p)
  {
    if |m.path| < |p| then p[|m.path| + 1..] else ""
  }

  /** The path is the mount path alone, or followed by a slash and the relative path; a file has no other. */
  lemma PathIsRebuilt(m: Mount, p: string)
    requires Matches(m, p)
    ensures (p == m.path && RelativePath(m, p) == "") || p == m.path + "/" + RelativePath(m, p)
    ensures m.kind == FileMount ==> p == m.path
  {
    if |m.path| < |p| {
      assert p == m.path + [p[|m.path|]] + p[|m.path| + 1..];
    }
  }
}
