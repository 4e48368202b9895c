/** Where managed directories are: registered paths, the places they stand for, and the check on what
    is deleted (deploytool/managedfs/filesystem.go:83-240, deploytool/managedfs/util.go:50-69). */
module ManagedPlaces {

  import opened Text
  import opened CleanPaths

  /** isValidSinglePathComponent: it lets `.` and `..` pass. */
  predicate ValidComponent(elem: string) {
    elem != "" && '/' !in elem
  }

  predicate ValidPath(path: seq<string>) {
    forall i | 0 <= i < |path| :: ValidComponent(path[i])
  }

  /** A name that a directory can have an entry of. */
  predicate PlainName(name: string) {
    ValidComponent(name) && name != "." && name != ".."
  }

  predicate PlainPath(path: seq<string>) {
    forall i | 0 <= i < |path| :: PlainName(path[i])
  }

  /** In an absolute path, clean and plain are the same. */
  lemma PlainNormal(comps: seq<string>)
    ensures PlainPath(comps) <==> Normal(true, comps)
  {
  }

  // ----- Registered paths -----

  /** The relPath of a sub-directory, for any text: filepath.Join splits it at its slashes. */
  function SubPath(relPath: seq<string>, elem: string): seq<string> {
    PushAll(false, relPath, Split(elem, '/'))
  }

  /** The relPath of the directory that is registered under `path` below another one. GetSubDirectory
      takes any names. */
  function RelFrom(relPath: seq<string>, path: seq<string>): seq<string>
    decreases |path|
  {
    if path == [] then relPath else RelFrom(SubPath(relPath, path[0]), path[1..])
  }

  /** The directory with the given relPath. */
  function Place(root: Clean, relPath: seq<string>): Clean {
    Clean(root.rooted, PushAll(root.rooted, root.comps, relPath))
  }

  /** String, of the directory registered under a path below the base. */
  function PlaceOf(root: Clean, path: seq<string>): Clean {
    Place(root, RelFrom([], path))
  }

  lemma SubPathNormal(relPath: seq<string>, elem: string)
    requires Normal(false, relPath)
    ensures Normal(false, SubPath(relPath, elem))
  {
    SplitFree(elem, '/');
    PushAllNormal(false, relPath, Split(elem, '/'));
  }

  lemma {:induction false} RelFromNormal(relPath: seq<string>, path: seq<string>)
    requires Normal(false, relPath)
    ensures Normal(false, RelFrom(relPath, path))
    decreases |path|
  {
    if path != [] {
      hide SubPath, Normal;
      SubPathNormal(relPath, path[0]);
      RelFromNormal(SubPath(relPath, path[0]), path[1..]);
    }
  }

  lemma PlaceNormal(root: Clean, path: seq<string>)
    requires Normal(root.rooted, root.comps)
    ensures Normal(root.rooted, PlaceOf(root, path).comps)
  {
    hide PushAll;
    RelFromNormal([], path);
    NormalFree(false, RelFrom([], path));
    PushAllNormal(root.rooted, root.comps, RelFrom([], path));
  }

  lemma {:induction false} RelFromConcat(relPath: seq<string>, a: seq<string>, b: seq<string>)
    ensures RelFrom(relPath, a + b) == RelFrom(RelFrom(relPath, a), b)
    decreases |a|
  {
    if a == [] {
      assert a + b == b;
    } else {
      hide SubPath;
      assert (a + b)[1..] == a[1..] + b;
      RelFromConcat(SubPath(relPath, a[0]), a[1..], b);
    }
  }

  lemma ComponentPath(relPath: seq<string>, elem: string)
    requires '/' !in elem
    ensures SubPath(relPath, elem) == Push(false, relPath, elem)
  {
    SplitPart(elem, "", '/');
    PushOne(false, relPath, elem);
  }

  lemma {:induction false} ComponentsPath(relPath: seq<string>, elems: seq<string>)
    requires ValidPath(elems)
    ensures RelFrom(relPath, elems) == PushAll(false, relPath, elems)
    decreases |elems|
  {
    if elems != [] {
      hide Push, SubPath;
      ComponentPath(relPath, elems[0]);
      ComponentsPath(Push(false, relPath, elems[0]), elems[1..]);
    }
  }

  /** The directory that EnsureDirectory registers is the one that it makes: joining name by name below the
      directory it is called on, and that below the root, is joining all names to that directory. */
  lemma PlaceIsMade(root: Clean, path: seq<string>, elems: seq<string>)
    requires ValidPath(elems)
    ensures PlaceOf(root, path + elems) == Clean(root.rooted, PushAll(root.rooted, PlaceOf(root, path).comps, elems))
  {
    hide PushAll, SubPath;
    RelFromConcat([], path, elems);
    RelFromNormal([], path);
    ComponentsPath(RelFrom([], path), elems);
    PushNormalised(root.rooted, root.comps, RelFrom([], path), elems);
  }

  // ----- On the disk -----

  /** A place from the root of the disk, for a process that runs in cwd. */
  function Resolve(cwd: seq<string>, place: Clean): seq<string> {
    if place.rooted then place.comps else PushAll(true, cwd, place.comps)
  }

  /** Where on the disk the directory registered under a path is. */
  function At(cwd: seq<string>, root: Clean, path: seq<string>): seq<string> {
    Resolve(cwd, PlaceOf(root, path))
  }

  /** Wherever the root is, relative or not, a registered path leads on from it. */
  lemma ResolvedPlace(cwd: seq<string>, root: Clean, path: seq<string>)
    requires Normal(root.rooted, root.comps)
    ensures At(cwd, root, path) == PushAll(true, Resolve(cwd, root), RelFrom([], path))
  {
    hide PushAll;
    RelFromNormal([], path);
    NormalFree(false, RelFrom([], path));
    if !root.rooted {
      PushNormalised(true, cwd, root.comps, RelFrom([], path));
    }
  }

  /** Places on the disk have plain names. */
  lemma AtPlain(cwd: seq<string>, root: Clean, path: seq<string>)
    requires PlainPath(cwd) && Normal(root.rooted, root.comps)
    ensures PlainPath(At(cwd, root, path))
  {
    hide PushAll;
    PlaceNormal(root, path);
    NormalFree(root.rooted, PlaceOf(root, path).comps);
    PlainNormal(cwd);
    PlainNormal(At(cwd, root, path));
    if !root.rooted {
      PushAllNormal(true, cwd, PlaceOf(root, path).comps);
    }
  }

  lemma {:induction false} PlainLeads(rooted: bool, base: seq<string>, path: seq<string>)
    requires PlainPath(path)
    ensures PushAll(rooted, base, path) == base + path
    decreases |path|
  {
    if path == [] {
      assert base + path == base;
    } else {
      PlainLeads(rooted, base + [path[0]], path[1..]);
      assert base + path == base + [path[0]] + path[1..];
    }
  }

  /** A path of plain names leads to itself. */
  lemma PlainAt(cwd: seq<string>, root: Clean, path: seq<string>)
    requires Normal(root.rooted, root.comps) && PlainPath(path)
    ensures At(cwd, root, path) == At(cwd, root, []) + path
    ensures PlaceOf(root, path).comps == root.comps + path
  {
    hide PushAll;
    ResolvedPlace(cwd, root, path);
    ResolvedPlace(cwd, root, []);
    ComponentsPath([], path);
    PlainLeads(false, [], path);
    PlainLeads(true, Resolve(cwd, root), path);
    PlainLeads(true, Resolve(cwd, root), []);
    PlainLeads(root.rooted, root.comps, path);
    assert [] + path == path;
    assert Resolve(cwd, root) + [] == Resolve(cwd, root);
  }

  // ----- What may be deleted -----

  /** isSubpath, a check on strings. */
  predicate IsSubpath(root: string, path: string) {
    && root <= path
    && (|path| > |root| ==> path[|root|] == '/')
  }

  lemma {:induction false} JoinConcat(a: seq<string>, b: seq<string>)
    requires a != [] && b != []
    ensures Join(a + b, '/') == Join(a, '/') + "/" + Join(b, '/')
  {
    if |a| == 1 {
      assert (a + b)[1..] == b;
    } else {
      assert (a + b)[1..] == a[1..] + b;
      hide Join;
      JoinFront(a);
      JoinFront(a + b);
      JoinConcat(a[1..], b);
    }
  }

  lemma JoinFront(a: seq<string>)
    requires |a| > 1
    ensures Join(a, '/') == a[0] + "/" + Join(a[1..], '/')
  {
  }

  lemma ShowBelow(root: Clean, rest: seq<string>)
    requires root.comps != []
    ensures IsSubpath(Show(root), Show(Clean(root.rooted, root.comps + rest)))
  {
    if rest == [] {
      assert root.comps + rest == root.comps;
    } else {
      JoinConcat(root.comps, rest);
      hide Join;
      var below := Show(Clean(root.rooted, root.comps + rest));
      assert below == Show(root) + ("/" + Join(rest, '/'));
    }
  }

  /** The check holds exactly below a root that is neither `/` nor `.`. */
  lemma SubpathExact(root: Clean, place: Clean)
    requires Normal(root.rooted, root.comps) && Normal(place.rooted, place.comps) && place.comps != []
    requires root.rooted == place.rooted
    ensures IsSubpath(Show(root), Show(place)) <==> root.comps != [] && root.comps <= place.comps
  {
    hide Join, Split, Normal;
    if root.comps != [] && root.comps <= place.comps {
      assert place.comps == root.comps + place.comps[|root.comps|..];
      ShowBelow(root, place.comps[|root.comps|..]);
    }
    if IsSubpath(Show(root), Show(place)) {
      SubpathBelow(root, place);
    }
  }

  lemma PrefixComponents(a: seq<string>, b: seq<string>)
    requires a != [] && b != [] && AllFree(a, '/') && AllFree(b, '/')
    requires IsSubpath(Join(a, '/'), Join(b, '/'))
    ensures a <= b
  {
    hide Join, Split;
    var x, y := Join(a, '/'), Join(b, '/');
    SplitJoin(a, '/');
    SplitJoin(b, '/');
    if |y| > |x| {
      assert y == x + ['/'] + y[|x| + 1..];
      SplitConcat(x, y[|x| + 1..], '/');
    } else {
      assert y == x;
    }
  }

  lemma BehindLead(lead: string, x: string, y: string)
    requires IsSubpath(lead + x, lead + y)
    ensures IsSubpath(x, y)
  {
    assert (lead + x)[|lead|..] == x && (lead + y)[|lead|..] == y;
    if |y| > |x| {
      assert (lead + y)[|lead + x|] == y[|x|];
    }
  }

  lemma SubpathBelow(root: Clean, place: Clean)
    requires Normal(root.rooted, root.comps) && Normal(place.rooted, place.comps) && place.comps != []
    requires root.rooted == place.rooted && IsSubpath(Show(root), Show(place))
    ensures root.comps != [] && root.comps <= place.comps
  {
    hide Split;
    NormalFree(root.rooted, root.comps);
    NormalFree(place.rooted, place.comps);
    JoinFirstIn(place);
    if root.comps != [] || !root.rooted {
      var shown := if root.comps == [] then ["."] else root.comps;
      assert Show(root) == Lead(root.rooted) + Join(shown, '/');
      BehindLead(Lead(root.rooted), Join(shown, '/'), Join(place.comps, '/'));
      PrefixComponents(shown, place.comps);
      assert place.comps[0] != ".";
    }
  }

  lemma JoinFirstIn(place: Clean)
    requires Normal(place.rooted, place.comps) && place.comps != []
    ensures Join(place.comps, '/') != "" && Join(place.comps, '/')[0] != '/'
  {
    JoinFirst(place.comps, '/');
  }

  /** What the check before a deletion lets pass. */
  predicate Deletable(root: Clean, place: seq<string>) {
    IsSubpath(Show(root), Show(Clean(root.rooted, place)))
  }

  /** The same of components: a place that is spelled as the root, or as the root with more behind it. */
  predicate SpelledBelow(root: Clean, place: seq<string>) {
    root.comps != [] && root.comps <= place
  }

  lemma AppendPlain(rooted: bool, place: seq<string>, name: string)
    requires Normal(rooted, place) && PlainName(name)
    ensures Push(rooted, place, name) == place + [name] && Normal(rooted, place + [name])
  {
    PushNormal(rooted, place, name);
  }

  lemma DeletableExact(root: Clean, place: seq<string>, name: string)
    requires Normal(root.rooted, root.comps) && Normal(root.rooted, place) && PlainName(name)
    ensures Deletable(root, place + [name]) <==> SpelledBelow(root, place + [name])
  {
    AppendPlain(root.rooted, place, name);
    SubpathExact(root, Clean(root.rooted, place + [name]));
  }
}
