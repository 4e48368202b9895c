/** path.Clean of Go, and filepath.Clean and filepath.Join on Unix: what client/isolate/utils.go and
    deploytool/managedfs/filesystem.go build paths with. */
module CleanPaths {

  import opened Text

  /** A cleaned path: its components, from the root or from wherever it is relative to. */
  datatype Clean = Clean(rooted: bool, comps: seq<string>)

  function Push(rooted: bool, stack: seq<string>, part: string): seq<string> {
    if part == "" || part == "." then stack
    else if part != ".." then stack + [part]
    else if stack != [] && stack[|stack| - 1] != ".." then stack[..|stack| - 1]
    else if rooted then stack
    else stack + [part]
  }

  function PushAll(rooted: bool, stack: seq<string>, parts: seq<string>): seq<string>
    decreases |parts|
  {
    if parts == [] then stack else PushAll(rooted, Push(rooted, stack, parts[0]), parts[1..])
  }

  predicate IsAbs(path: string) {
    path != "" && path[0] == '/'
  }

  function CleanOf(path: string): Clean {
    Clean(IsAbs(path), PushAll(IsAbs(path), [], Split(path, '/')))
  }

  function Lead(rooted: bool): string {
    if rooted then "/" else ""
  }

  function Show(c: Clean): string {
    if !c.rooted && c.comps == [] then "." else Lead(c.rooted) + Join(c.comps, '/')
  }

  /** path.Clean. */
  function CleanPath(path: string): string {
    Show(CleanOf(path))
  }

  /** Components are not empty and have no slash, and `..` comes only first, in a relative path. */
  ghost predicate Normal(rooted: bool, comps: seq<string>) {
    && (forall i | 0 <= i < |comps| :: comps[i] != "" && comps[i] != "." && '/' !in comps[i])
    && (forall i | 0 <= i < |comps| && comps[i] == ".." :: !rooted && (i > 0 ==> comps[i - 1] == ".."))
  }

  lemma PushNormal(rooted: bool, stack: seq<string>, part: string)
    requires Normal(rooted, stack) && '/' !in part
    ensures Normal(rooted, Push(rooted, stack, part))
  {
  }

  lemma {:induction false} PushAllNormal(rooted: bool, stack: seq<string>, parts: seq<string>)
    requires Normal(rooted, stack) && AllFree(parts, '/')
    ensures Normal(rooted, PushAll(rooted, stack, parts))
    decreases |parts|
  {
    if parts != [] {
      PushNormal(rooted, stack, parts[0]);
      hide Push, Normal;
      assert AllFree(parts[1..], '/');
      PushAllNormal(rooted, Push(rooted, stack, parts[0]), parts[1..]);
    }
  }

  lemma {:induction false} SplitFree(s: string, sep: char)
    ensures AllFree(Split(s, sep), sep)
  {
    if s != "" {
      SplitFree(s[1..], sep);
    }
  }

  lemma CleanNormal(path: string)
    ensures Normal(CleanOf(path).rooted, CleanOf(path).comps)
  {
    SplitFree(path, '/');
    PushAllNormal(IsAbs(path), [], Split(path, '/'));
  }

  lemma {:induction false} PushAllConcat(rooted: bool, stack: seq<string>, a: seq<string>, b: seq<string>)
    ensures PushAll(rooted, stack, a + b) == PushAll(rooted, PushAll(rooted, stack, a), b)
    decreases |a|
  {
    if a == [] {
      assert a + b == b;
    } else {
      hide Push;
      assert (a + b)[1..] == a[1..] + b;
      PushAllConcat(rooted, Push(rooted, stack, a[0]), a[1..], b);
    }
  }

  /** Pushing the rest of a normal path completes it. */
  lemma {:induction false} PushRest(rooted: bool, comps: seq<string>, k: nat)
    requires Normal(rooted, comps) && k <= |comps|
    ensures PushAll(rooted, comps[..k], comps[k..]) == comps
    decreases |comps| - k
  {
    if k < |comps| {
      assert comps[k..][0] == comps[k] && comps[k..][1..] == comps[k + 1..];
      assert Push(rooted, comps[..k], comps[k]) == comps[..k + 1];
      PushRest(rooted, comps, k + 1);
    } else {
      assert comps[..k] == comps && comps[k..] == [];
    }
  }

  lemma PushOne(rooted: bool, stack: seq<string>, part: string)
    ensures PushAll(rooted, stack, [part]) == Push(rooted, stack, part)
  {
    assert [part][1..] == [];
  }

  /** A relative path may be cleaned before it is joined. */
  lemma PushRelative(rooted: bool, stack: seq<string>, rel: seq<string>, part: string)
    requires Normal(false, rel)
    ensures PushAll(rooted, stack, Push(false, rel, part)) == Push(rooted, PushAll(rooted, stack, rel), part)
  {
    if part == "" || part == "." {
    } else if part == ".." && rel != [] && rel[|rel| - 1] != ".." {
      var front, last := rel[..|rel| - 1], rel[|rel| - 1];
      assert rel == front + [last];
      PushAllConcat(rooted, stack, front, [last]);
      PushOne(rooted, PushAll(rooted, stack, front), last);
      var up := PushAll(rooted, stack, front);
      assert (up + [last])[..|up|] == up;
    } else {
      PushAllConcat(rooted, stack, rel, [part]);
      PushOne(rooted, PushAll(rooted, stack, rel), part);
    }
  }

  /** And so may a relative path of several parts. */
  lemma {:induction false} PushNormalised(rooted: bool, stack: seq<string>, rel: seq<string>, path: seq<string>)
    requires Normal(false, rel) && AllFree(path, '/')
    ensures PushAll(rooted, stack, PushAll(false, rel, path)) == PushAll(rooted, PushAll(rooted, stack, rel), path)
    decreases |path|
  {
    if path != [] {
      PushRelative(rooted, stack, rel, path[0]);
      PushNormal(false, rel, path[0]);
      hide Push, Normal;
      PushNormalised(rooted, stack, Push(false, rel, path[0]), path[1..]);
    }
  }

  // ----- Showing and joining -----

  lemma SplitStep(s: string, sep: char)
    requires s != ""
    ensures Split(s, sep) == if s[0] == sep then [""] + Split(s[1..], sep) else Prefixed(s[0], Split(s[1..], sep))
  {
  }

  function Prefixed(c: char, parts: seq<string>): seq<string>
    requires parts != []
  {
    [[c] + parts[0]] + parts[1..]
  }

  lemma PrefixedConcat(c: char, a: seq<string>, b: seq<string>)
    requires a != []
    ensures Prefixed(c, a + b) == Prefixed(c, a) + b
  {
    assert (a + b)[1..] == a[1..] + b;
  }

  lemma SplitEmpty(sep: char)
    ensures Split("", sep) == [""]
  {
  }

  lemma {:induction false} SplitConcat(a: string, b: string, sep: char)
    ensures Split(a + [sep] + b, sep) == Split(a, sep) + Split(b, sep)
  {
    hide Split, Prefixed;
    var s := a + [sep] + b;
    SplitStep(s, sep);
    SplitEmpty(sep);
    if a == "" {
      assert s == [sep] + b && s[1..] == b;
    } else {
      SplitStep(a, sep);
      assert s[0] == a[0] && s[1..] == a[1..] + [sep] + b;
      SplitConcat(a[1..], b, sep);
      if a[0] == sep {
        ConcatAssociative([""], Split(a[1..], sep), Split(b, sep));
      } else {
        PrefixedConcat(a[0], Split(a[1..], sep), Split(b, sep));
      }
    }
  }

  lemma NormalFree(rooted: bool, comps: seq<string>)
    requires Normal(rooted, comps)
    ensures AllFree(comps, '/')
  {
  }

  /** What a shown path is split into, apart from parts that mean nothing. */
  lemma SplitShow(c: Clean, stack: seq<string>)
    requires Normal(c.rooted, c.comps)
    ensures IsAbs(Show(c)) == c.rooted && Show(c) != ""
    ensures PushAll(c.rooted, stack, Split(Show(c), '/')) == PushAll(c.rooted, stack, c.comps)
  {
    hide Split, Join, Push, PushAll;
    NormalFree(c.rooted, c.comps);
    JoinedParts(c.comps, stack, c.rooted);
    if c.rooted {
      assert Show(c) == "" + ['/'] + Join(c.comps, '/');
      SplitConcat("", Join(c.comps, '/'), '/');
      SplitEmpty('/');
      PushAllConcat(true, stack, [""], Split(Join(c.comps, '/'), '/'));
      Nothing(true, stack, "");
    } else if c.comps != [] {
      JoinFirst(c.comps, '/');
      assert Show(c) == Join(c.comps, '/');
    } else {
      SplitPart(".", "", '/');
      Nothing(false, stack, ".");
    }
  }

  lemma JoinedParts(comps: seq<string>, stack: seq<string>, rooted: bool)
    requires AllFree(comps, '/')
    ensures PushAll(rooted, stack, Split(Join(comps, '/'), '/')) == PushAll(rooted, stack, comps)
    ensures comps == [] ==> PushAll(rooted, stack, comps) == stack
  {
    if comps == [] {
      SplitEmpty('/');
      Nothing(rooted, stack, "");
    } else {
      SplitJoin(comps, '/');
    }
  }

  lemma Nothing(rooted: bool, stack: seq<string>, part: string)
    requires part == "" || part == "."
    ensures PushAll(rooted, stack, [part]) == stack
  {
    assert [part][1..] == [];
  }

  lemma JoinFirst(comps: seq<string>, sep: char)
    requires comps != [] && comps[0] != "" && sep !in comps[0]
    ensures Join(comps, sep) != "" && Join(comps, sep)[0] == comps[0][0] && Join(comps, sep)[0] != sep
  {
    assert comps[0][0] in comps[0];
  }

  /** Showing and cleaning again changes nothing. */
  lemma CleanShow(c: Clean)
    requires Normal(c.rooted, c.comps)
    ensures CleanOf(Show(c)) == c
  {
    SplitShow(c, []);
    PushRest(c.rooted, c.comps, 0);
    assert c.comps[..0] == [] && c.comps[0..] == c.comps;
  }

  lemma ShowInjective(a: Clean, b: Clean)
    requires Normal(a.rooted, a.comps) && Normal(b.rooted, b.comps)
    ensures Show(a) == Show(b) ==> a == b
  {
    CleanShow(a);
    CleanShow(b);
  }

  /** Joining two paths with a slash and cleaning goes on from the first one. */
  lemma CleanJoined(base: Clean, rel: string)
    requires Normal(base.rooted, base.comps)
    ensures CleanOf(Show(base) + ['/'] + rel) == Clean(base.rooted, PushAll(base.rooted, base.comps, Split(rel, '/')))
  {
    var whole := Show(base) + ['/'] + rel;
    SplitShow(base, []);
    assert whole[0] == Show(base)[0];
    SplitConcat(Show(base), rel, '/');
    PushAllConcat(base.rooted, [], Split(Show(base), '/'), Split(rel, '/'));
    PushRest(base.rooted, base.comps, 0);
    assert base.comps[..0] == [] && base.comps[0..] == base.comps;
  }

  /** Components that can be joined and found again. */
  ghost predicate Joinable(comps: seq<string>) {
    forall i | 0 <= i < |comps| :: comps[i] != "" && '/' !in comps[i]
  }

  /** Joining to an absolute path. */
  lemma AbsJoined(dir: string, rel: string)
    requires IsAbs(dir)
    ensures CleanOf(dir + ['/'] + rel) == Clean(true, PushAll(true, CleanOf(dir).comps, Split(rel, '/')))
  {
    hide Split, Push, PushAll;
    var whole := dir + ['/'] + rel;
    assert whole[0] == dir[0];
    SplitConcat(dir, rel, '/');
    PushAllConcat(true, [], Split(dir, '/'), Split(rel, '/'));
  }

  /** Pushing the parts of a relative path as it is shown. */
  lemma PushText(c: Clean, stack: seq<string>)
    requires !c.rooted && Normal(false, c.comps)
    ensures PushAll(true, stack, Split(Show(c), '/')) == PushAll(true, stack, c.comps)
  {
    hide Split, Join, Push, PushAll;
    NormalFree(false, c.comps);
    JoinedParts(c.comps, stack, true);
    if c.comps != [] {
      assert Show(c) == Join(c.comps, '/');
    } else {
      SplitPart(".", "", '/');
      Nothing(true, stack, ".");
    }
  }
}
