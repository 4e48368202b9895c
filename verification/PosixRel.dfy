/** Relative paths (client/isolate/utils.go:62-135). */
module PosixRel {

  import opened Text
  import opened CleanPaths

  // ----- What the relative path is -----

  function Ups(n: nat): (r: seq<string>)
    ensures |r| == n && forall i | 0 <= i < n :: r[i] == ".."
  {
    seq(n, _ => "..")
  }

  /** Going up drops components. */
  lemma {:induction false} PushUps(rooted: bool, comps: seq<string>, n: nat)
    requires n <= |comps| && forall i | |comps| - n <= i < |comps| :: comps[i] != ".."
    ensures PushAll(rooted, comps, Ups(n)) == comps[..|comps| - n]
    decreases n
  {
    if n == 0 {
      assert comps[..|comps|] == comps;
    } else {
      var up := comps[..|comps| - 1];
      assert Ups(n)[1..] == Ups(n - 1);
      assert Push(rooted, comps, "..") == up;
      PushUps(rooted, up, n - 1);
      assert up[..|up| - (n - 1)] == comps[..|comps| - n];
    }
  }

  /** How many leading components two paths share. */
  function Shared(a: seq<string>, b: seq<string>): (k: nat)
    ensures k <= |a| && k <= |b| && a[..k] == b[..k]
    ensures k < |a| && k < |b| ==> a[k] != b[k]
  {
    if a == [] || b == [] || a[0] != b[0] then 0
    else
      var k := Shared(a[1..], b[1..]);
      assert a[..k + 1] == [a[0]] + a[1..][..k] && b[..k + 1] == [b[0]] + b[1..][..k];
      k + 1
  }

  /** The components of a path as it is shown: `.` stands for none. */
  function Shown(c: Clean): seq<string> {
    if !c.rooted && c.comps == [] then ["."] else c.comps
  }

  /** Up to the last shared directory and down again; None where a leading `..` of the base, or of a
      base below the root, is in the way. */
  function Rel(base: Clean, targ: Clean): Option<seq<string>> {
    if base == targ then Some(["."])
    else if base.rooted != targ.rooted then None
    else
      var k := Shared(base.comps, Shown(targ));
      if k < |base.comps| && base.comps[k] == ".." then None
      else Some(Ups(|base.comps| - k) + Shown(targ)[k..])
  }

  /** The relative path leads from base to targ. */
  lemma RelLeadsThere(base: Clean, targ: Clean)
    requires Normal(base.rooted, base.comps) && Normal(targ.rooted, targ.comps)
    requires Rel(base, targ).Some?
    ensures Rel(base, targ).value != [] && AllFree(Rel(base, targ).value, '/')
    ensures CleanOf(Show(base) + ['/'] + Join(Rel(base, targ).value, '/')) == targ
  {
    var rel := Rel(base, targ).value;
    RelParts(base, targ);
    CleanJoined(base, Join(rel, '/'));
    SplitJoin(rel, '/');
    hide Rel, Split, Join, Show, CleanOf, Normal;
    PushRel(base, targ);
  }

  lemma PushRel(base: Clean, targ: Clean)
    requires Normal(base.rooted, base.comps) && Normal(targ.rooted, targ.comps)
    requires Rel(base, targ).Some?
    ensures base.rooted == targ.rooted && PushAll(base.rooted, base.comps, Rel(base, targ).value) == targ.comps
  {
    hide PushAll, Normal, Shared, Ups;
    if base == targ {
      Nothing(base.rooted, base.comps, ".");
    } else {
      var k := Shared(base.comps, Shown(targ));
      NoUpsAbove(base, k);
      PushUps(base.rooted, base.comps, |base.comps| - k);
      PushAllConcat(base.rooted, base.comps, Ups(|base.comps| - k), Shown(targ)[k..]);
      DotShared(base);
      PushShown(targ, k);
    }
  }

  lemma PushShown(targ: Clean, k: nat)
    requires Normal(targ.rooted, targ.comps) && k <= |Shown(targ)| && (Shown(targ) == ["."] ==> k == 0)
    ensures PushAll(targ.rooted, Shown(targ)[..k], Shown(targ)[k..]) == targ.comps
  {
    if Shown(targ) == targ.comps {
      PushRest(targ.rooted, targ.comps, k);
    } else {
      assert Shown(targ)[0..] == ["."] && Shown(targ)[..0] == [];
      Nothing(false, [], ".");
    }
  }

  lemma DotShared(base: Clean)
    requires Normal(base.rooted, base.comps)
    ensures Shared(base.comps, ["."]) == 0
  {
  }

  lemma RelParts(base: Clean, targ: Clean)
    requires Normal(base.rooted, base.comps) && Normal(targ.rooted, targ.comps)
    requires Rel(base, targ).Some?
    ensures Rel(base, targ).value != [] && AllFree(Rel(base, targ).value, '/')
  {
    hide Normal, Shared, Ups;
    NormalFree(targ.rooted, targ.comps);
    if base != targ {
      DotShared(base);
      var k := Shared(base.comps, Shown(targ));
      AllShared(base.comps, Shown(targ));
      assert AllFree(Shown(targ), '/');
      hide Shown;
      assert AllFree(Ups(|base.comps| - k) + Shown(targ)[k..], '/');
    }
  }

  lemma AllShared(a: seq<string>, b: seq<string>)
    ensures Shared(a, b) == |a| == |b| ==> a == b
  {
    assert a[..|a|] == a && b[..|b|] == b;
    hide Shared;
  }

  /** In a normal path no `..` comes after another component. */
  lemma {:induction false} NoUpsFrom(base: Clean, k: nat, i: nat)
    requires Normal(base.rooted, base.comps) && k <= i < |base.comps| && base.comps[k] != ".."
    ensures base.comps[i] != ".."
  {
    if i > k {
      NoUpsFrom(base, k, i - 1);
    }
  }

  lemma NoUpsAbove(base: Clean, k: nat)
    requires Normal(base.rooted, base.comps) && k <= |base.comps|
    requires k < |base.comps| ==> base.comps[k] != ".."
    ensures forall i | k <= i < |base.comps| :: base.comps[i] != ".."
  {
    forall i | k <= i < |base.comps| ensures base.comps[i] != ".." {
      NoUpsFrom(base, k, i);
    }
  }

  /** Leading `..` components stay, whatever is appended. */
  lemma {:induction false} UpsStay(stack: seq<string>, parts: seq<string>, m: nat)
    requires m <= |stack| && forall i | 0 <= i < m :: stack[i] == ".."
    ensures |PushAll(false, stack, parts)| >= m
    ensures forall i | 0 <= i < m :: PushAll(false, stack, parts)[i] == ".."
    decreases |parts|
  {
    if parts != [] {
      UpsStay(Push(false, stack, parts[0]), parts[1..], m);
    }
  }

  /** Where there is no relative path according to Rel, there is none at all. */
  lemma NoneLeadsThere(base: Clean, targ: Clean, rel: string)
    requires Normal(base.rooted, base.comps) && Normal(targ.rooted, targ.comps)
    requires Rel(base, targ).None?
    ensures CleanOf(Show(base) + ['/'] + rel) != targ
  {
    CleanJoined(base, rel);
    if base.rooted == targ.rooted {
      var k := Shared(base.comps, Shown(targ));
      UpsBefore(base, k);
      UpsStay(base.comps, Split(rel, '/'), k + 1);
    }
  }

  lemma {:induction false} UpsBefore(base: Clean, k: nat)
    requires Normal(base.rooted, base.comps) && k < |base.comps| && base.comps[k] == ".."
    ensures !base.rooted && forall i | 0 <= i <= k :: base.comps[i] == ".."
  {
    if k > 0 {
      UpsBefore(base, k - 1);
    }
  }

  // ----- posixRel -----

  /** What stands up to the next slash of a joined path, and what comes after it. */
  lemma FirstSegment(comps: seq<string>, n: nat)
    requires Joinable(comps)
    requires n <= |Join(comps, '/')| && forall x | 0 <= x < n :: Join(comps, '/')[x] != '/'
    requires n < |Join(comps, '/')| ==> Join(comps, '/')[n] == '/'
    ensures comps == [] ==> n == 0
    ensures comps != [] ==> Join(comps, '/')[..n] == comps[0] && n > 0
    ensures n == |Join(comps, '/')| <==> |comps| <= 1
    ensures |comps| > 1 ==> Join(comps, '/')[n + 1..] == Join(comps[1..], '/')
    ensures comps != [] ==> Joinable(comps[1..])
  {
    if comps != [] {
      var s, c := Join(comps, '/'), comps[0];
      assert forall x | 0 <= x < |c| :: s[x] == c[x] && c[x] in c;
      assert forall x | 0 <= x < |c| :: s[x] != '/';
      if |comps| == 1 {
        assert s[..n] == c;
      } else {
        assert s == c + ['/'] + Join(comps[1..], '/') && s[|c|] == '/';
        assert n == |c| && s[..n] == c;
      }
    }
  }

  lemma JoinNotEmpty(comps: seq<string>)
    requires Joinable(comps)
    ensures Join(comps, '/') == "" <==> comps == []
  {
  }

  lemma SharedIs(a: seq<string>, b: seq<string>, j: nat)
    requires j <= |a| && j <= |b| && a[..j] == b[..j]
    requires j < |a| && j < |b| ==> a[j] != b[j]
    ensures Shared(a, b) == j
  {
    var k := Shared(a, b);
    SamePrefix(a, b, j);
    SamePrefix(a, b, k);
  }

  lemma SamePrefix(a: seq<string>, b: seq<string>, k: nat)
    requires k <= |a| && k <= |b| && a[..k] == b[..k]
    ensures forall x | 0 <= x < k :: a[x] == b[x]
  {
    assert forall x | 0 <= x < k :: a[..k][x] == b[..k][x];
  }

  /** strings.Count of a single character. */
  function Count(s: string, c: char): nat {
    if s == "" then 0 else (if s[0] == c then 1 else 0) + Count(s[1..], c)
  }

  lemma {:induction false} CountConcat(a: string, b: string, c: char)
    ensures Count(a + b, c) == Count(a, c) + Count(b, c)
    ensures c !in a ==> Count(a, c) == 0
  {
    if a == "" {
      assert a + b == b;
    } else {
      assert (a + b)[1..] == a[1..] + b;
      CountConcat(a[1..], b, c);
    }
  }

  lemma {:induction false} CountJoined(comps: seq<string>)
    requires Joinable(comps) && comps != []
    ensures Count(Join(comps, '/'), '/') == |comps| - 1
  {
    CountConcat(comps[0], "", '/');
    if |comps| > 1 {
      CountJoined(comps[1..]);
      var rest := ['/'] + Join(comps[1..], '/');
      CountConcat(comps[0], rest, '/');
      assert rest[1..] == Join(comps[1..], '/');
      assert Join(comps, '/') == comps[0] + rest;
    }
  }

  /** `..`, n + 1 times. */
  function Dots(n: nat): (r: string)
    ensures |r| == 2 + 3 * n
  {
    if n == 0 then ".." else Dots(n - 1) + "/.."
  }

  lemma JoinOnto(part: string, rest: seq<string>)
    ensures Join([part] + rest, '/') == part + Below(rest)
  {
    assert ([part] + rest)[1..] == rest;
    if rest == [] {
      assert part + "" == part;
    }
  }

  /** What follows a component. */
  function Below(rest: seq<string>): string {
    if rest == [] then "" else "/" + Join(rest, '/')
  }

  lemma UpsSnoc(n: nat, rest: seq<string>)
    requires n > 0
    ensures Ups(n) + rest == Ups(n - 1) + ([".."] + rest)
    ensures Ups(0) + rest == rest
  {
  }

  lemma Dotted(s: string, tail: string)
    ensures s + ("/" + (".." + tail)) == (s + "/..") + tail
  {
  }

  lemma {:induction false} JoinUps(n: nat, rest: seq<string>)
    requires n > 0
    ensures Join(Ups(n) + rest, '/') == Dots(n - 1) + Below(rest)
    ensures Join(Ups(0) + rest, '/') == Join(rest, '/')
  {
    hide Join, Ups;
    UpsSnoc(n, rest);
    UpsSnoc(1, [".."] + rest);
    JoinOnto("..", rest);
    if n > 1 {
      JoinUps(n - 1, [".."] + rest);
      Dotted(Dots(n - 2), Below(rest));
    }
  }

  /** Go's copy into a slice that is long enough. */
  method Copy(buf: array<char>, at: nat, s: string)
    requires at + |s| <= buf.Length
    modifies buf
    ensures buf[..at] == old(buf[..at]) && buf[at..at + |s|] == s && buf[at + |s|..] == old(buf[at + |s|..])
  {
    var i := 0;
    while i < |s|
      invariant 0 <= i <= |s|
      invariant buf[..at] == old(buf[..at]) && buf[at..at + i] == s[..i] && buf[at + i..] == old(buf[at + i..])
    {
      ghost var before := buf[..];
      buf[at + i] := s[i];
      assert buf[..] == before[at + i := s[i]];
      i := i + 1;
    }
  }

  /** Writes a slash and s. */
  method CopyPart(buf: array<char>, at: nat, s: string)
    requires at + 1 + |s| <= buf.Length
    modifies buf
    ensures buf[..at + 1 + |s|] == old(buf[..at]) + "/" + s
  {
    buf[at] := '/';
    Copy(buf, at + 1, s);
    assert buf[..at + 1 + |s|] == buf[..at + 1] + buf[at + 1..at + 1 + |s|];
  }

  /** The way up, and down to `rest` if there is anything left of the target: fills the buffer, whose
      size is computed beforehand, exactly. */
  method UpAndDown(seps: nat, down: bool, rest: string) returns (r: string)
    ensures r == Dots(seps) + if down then "/" + rest else ""
  {
    var size := 2 + seps * 3;
    if down {
      size := size + 1 + |rest|;
    }
    var buf := new char[size];
    Copy(buf, 0, "..");
    var n := 2;
    var i := 0;
    while i < seps
      invariant 0 <= i <= seps && n == 2 + 3 * i && n <= buf.Length
      invariant buf[..n] == Dots(i)
    {
      CopyPart(buf, n, "..");
      n := n + 3;
      i := i + 1;
    }
    if down {
      CopyPart(buf, n, rest);
      n := n + 1 + |rest|;
    }
    assert buf[..n] == buf[..];
    return buf[..];
  }

  /** Moves on to the next slash, or to the end. */
  method NextSlash(s: string, from: nat) returns (i: nat)
    requires from <= |s|
    ensures from <= i <= |s| && (i < |s| ==> s[i] == '/') && forall x | from <= x < i :: s[x] != '/'
  {
    i := from;
    while i < |s| && s[i] != '/'
      invariant from <= i <= |s| && forall x | from <= x < i :: s[x] != '/'
    {
      i := i + 1;
    }
  }

  /** How far the scan is: j components are found to be shared, the rest of each path is ahead. */
  ghost predicate Ahead(base: string, targ: string, b: nat, t: nat, bc: seq<string>, tc: seq<string>, j: nat) {
    && b <= |base| && t <= |targ| && j <= |bc| && j <= |tc| && bc[..j] == tc[..j]
    && base[b..] == Join(bc[j..], '/') && targ[t..] == Join(tc[j..], '/')
  }

  lemma Tails(comps: seq<string>, j: nat)
    requires j <= |comps| && Joinable(comps)
    ensures Joinable(comps[j..]) && (comps[j..] == [] <==> j == |comps|)
    ensures j < |comps| ==> comps[j..][0] == comps[j] && comps[j..][1..] == comps[j + 1..]
    ensures j + 1 == |comps| ==> Join(comps[j + 1..], '/') == ""
  {
  }

  lemma Slices(s: string, a: nat, b: nat)
    requires a <= b <= |s|
    ensures s[a..][..b - a] == s[a..b]
    ensures forall x | 0 <= x < |s[a..]| :: s[a..][x] == s[a + x]
    ensures b < |s| ==> s[a..][b - a + 1..] == s[b + 1..]
  {
  }

  lemma NextShared(a: seq<string>, b: seq<string>, j: nat)
    requires j <= |a| && j <= |b| && a[..j] == b[..j] && a != b
    ensures j < |a| || j < |b|
    ensures j < |a| && j < |b| && a[j] == b[j] ==> a[..j + 1] == b[..j + 1]
  {
    assert a[..|a|] == a && b[..|b|] == b;
    if j < |a| && j < |b| {
      assert a[..j + 1] == a[..j] + [a[j]] && b[..j + 1] == b[..j] + [b[j]];
    }
  }

  /** The next component of a path: what stands up to the next slash. */
  lemma NextComponent(path: string, from: nat, to: nat, comps: seq<string>, j: nat)
    requires Joinable(comps) && j <= |comps| && from <= to <= |path| && path[from..] == Join(comps[j..], '/')
    requires (to < |path| ==> path[to] == '/') && forall x | from <= x < to :: path[x] != '/'
    ensures from == |path| <==> j == |comps|
    ensures path[from..to] == if j < |comps| then comps[j] else ""
    ensures j < |comps| ==> path[from..to] != ""
    ensures j < |comps| ==> path[if to < |path| then to + 1 else to..] == Join(comps[j + 1..], '/')
  {
    Tails(comps, j);
    FirstSegment(comps[j..], to - from);
    Slices(path, from, to);
    JoinNotEmpty(comps[j..]);
    hide Joinable, Join;
  }

  /** One turn of the scan, past the root's slash. */
  lemma ScanStep(base: string, targ: string, b0: nat, t0: nat, bi: nat, ti: nat, bc: seq<string>, tc: seq<string>,
                 j: nat)
    requires Joinable(bc) && Joinable(tc) && bc != tc && Ahead(base, targ, b0, t0, bc, tc, j)
    requires b0 <= bi <= |base| && (bi < |base| ==> base[bi] == '/') && forall x | b0 <= x < bi :: base[x] != '/'
    requires t0 <= ti <= |targ| && (ti < |targ| ==> targ[ti] == '/') && forall x | t0 <= x < ti :: targ[x] != '/'
    ensures targ[t0..ti] == base[b0..bi] ==>
      && j < |bc| && j < |tc|
      && Ahead(base, targ, if bi < |base| then bi + 1 else bi, if ti < |targ| then ti + 1 else ti, bc, tc, j + 1)
    ensures targ[t0..ti] != base[b0..bi] ==>
      && Shared(bc, tc) == j && (b0 == |base| <==> j == |bc|) && (t0 == |targ| <==> j == |tc|)
      && (base[b0..bi] == ".." <==> j < |bc| && bc[j] == "..")
  {
    hide Joinable, Join, Shared;
    NextComponent(base, b0, bi, bc, j);
    NextComponent(targ, t0, ti, tc, j);
    NextShared(bc, tc, j);
    if targ[t0..ti] != base[b0..bi] {
      SharedIs(bc, tc, j);
    }
  }

  /** A cleaned path as the scan sees it. */
  lemma ShownText(c: Clean)
    requires Normal(c.rooted, c.comps)
    ensures Show(c) == Lead(c.rooted) + Join(Shown(c), '/') && Joinable(Shown(c)) && Joinable(c.comps)
    ensures IsAbs(Show(c)) == c.rooted
    ensures Show(c) == "." <==> !c.rooted && c.comps == []
  {
    assert forall i | 0 <= i < |c.comps| :: c.comps[i] != "." && c.comps[i] != "";
    SplitShow(c, []);
    if !c.rooted && |c.comps| == 1 {
      assert Join(c.comps, '/') == c.comps[0];
    } else if !c.rooted && |c.comps| > 1 {
      assert |Join(c.comps, '/')| > 1;
    }
  }

  /** posixRel: None is its error. */
  method PosixRel(basepath: string, targpath: string) returns (r: Option<string>)
    ensures r == match Rel(CleanOf(basepath), CleanOf(targpath))
                 case None => None
                 case Some(comps) => Some(Join(comps, '/'))
  {
    ghost var b, t := CleanOf(basepath), CleanOf(targpath);
    var base, targ := CleanPath(basepath), CleanPath(targpath);
    CleanNormal(basepath);
    CleanNormal(targpath);
    ShowInjective(b, t);
    if targ == base {
      return Some(".");
    }
    ShownText(b);
    ShownText(t);
    if base == "." {
      base := "";
    }
    if IsAbs(base) != IsAbs(targ) {
      return None;
    }
    r := Scan(base, targ, b, t);
  }

  lemma ShownDiffers(b: Clean, t: Clean)
    requires Normal(b.rooted, b.comps) && b.rooted == t.rooted && b != t
    ensures b.comps != Shown(t)
  {
    assert "." !in b.comps;
    assert Shown(t) == ["."] ==> "." in Shown(t);
  }

  /** Before the scan, or behind the root's slash. */
  lemma RootAhead(base: string, targ: string, rooted: bool, bc: seq<string>, tc: seq<string>)
    requires base == Lead(rooted) + Join(bc, '/') && targ == Lead(rooted) + Join(tc, '/')
    ensures rooted ==> base != "" && base[0] == '/' && targ != "" && targ[0] == '/'
    ensures var n := if rooted then 1 else 0; Ahead(base, targ, n, n, bc, tc, 0)
  {
    assert bc[..0] == tc[..0] == [] && bc[0..] == bc && tc[0..] == tc;
  }

  lemma RelIs(b: Clean, t: Clean, j: nat)
    requires b.rooted == t.rooted && b != t && j == Shared(b.comps, Shown(t))
    ensures Rel(b, t) == if j < |b.comps| && b.comps[j] == ".." then None
                         else Some(Ups(|b.comps| - j) + Shown(t)[j..])
  {
  }

  /** The scan for the first difference, and what follows it. */
  method Scan(base: string, targ: string, ghost b: Clean, ghost t: Clean) returns (r: Option<string>)
    requires Normal(b.rooted, b.comps) && Joinable(b.comps) && Joinable(Shown(t)) && b.rooted == t.rooted && b != t
    requires base == Lead(b.rooted) + Join(b.comps, '/') && targ == Lead(b.rooted) + Join(Shown(t), '/')
    ensures r == match Rel(b, t)
                 case None => None
                 case Some(comps) => Some(Join(comps, '/'))
  {
    hide Join, Joinable, Normal, Shared, Ups;
    ghost var bc, tc := b.comps, Shown(t);
    ShownDiffers(b, t);
    var b0, bi, t0, ti := 0, 0, 0, 0;
    ghost var j := 0;
    ghost var atRoot := b.rooted;
    RootAhead(base, targ, b.rooted, bc, tc);
    while true
      invariant b0 == bi <= |base| && t0 == ti <= |targ|
      invariant atRoot ==> b.rooted && b0 == 0 && t0 == 0 && j == 0
      invariant !atRoot ==> Ahead(base, targ, b0, t0, bc, tc, j)
      decreases atRoot, |bc| - j
    {
      bi := NextSlash(base, bi);
      ti := NextSlash(targ, ti);
      if !atRoot {
        ScanStep(base, targ, b0, t0, bi, ti, bc, tc, j);
      }
      if targ[t0..ti] != base[b0..bi] {
        break;
      }
      if bi < |base| {
        bi := bi + 1;
      }
      if ti < |targ| {
        ti := ti + 1;
      }
      b0 := bi;
      t0 := ti;
      if !atRoot {
        j := j + 1;
      }
      atRoot := false;
    }
    RelIs(b, t, j);
    if base[b0..bi] == ".." {
      return None;
    }
    var s := WayThere(base, targ, b0, t0, bc, tc, j);
    return Some(s);
  }

  /** From the first difference on: up from the base, and down to the target. */
  method WayThere(base: string, targ: string, b0: nat, t0: nat, ghost bc: seq<string>, ghost tc: seq<string>,
                  ghost j: nat)
    returns (r: string)
    requires Joinable(bc) && Ahead(base, targ, b0, t0, bc, tc, j)
    requires (b0 == |base| <==> j == |bc|) && (t0 == |targ| <==> j == |tc|)
    ensures r == Join(Ups(|bc| - j) + tc[j..], '/')
  {
    hide Join, Joinable, Ups;
    if b0 != |base| {
      var seps := Count(base[b0..], '/');
      Tails(bc, j);
      CountJoined(bc[j..]);
      JoinUps(|bc| - j, tc[j..]);
      assert Below(tc[j..]) == if tc[j..] == [] then "" else "/" + Join(tc[j..], '/');
      r := UpAndDown(seps, |targ| != t0, targ[t0..]);
      return;
    }
    JoinUps(1, tc[j..]);
    return targ[t0..];
  }

  /** posixRel gives a relative path whenever there is one, and one that leads from the base to the
      target: joined to the cleaned base and cleaned, it is the cleaned target. */
  lemma RelExact(basepath: string, targpath: string)
    ensures var r := Rel(CleanOf(basepath), CleanOf(targpath));
      && (r.Some? ==> CleanPath(CleanPath(basepath) + "/" + Join(r.value, '/')) == CleanPath(targpath))
      && (r.Some? <==> exists rel: string :: CleanPath(CleanPath(basepath) + "/" + rel) == CleanPath(targpath))
  {
    hide Rel, CleanOf, Show, Normal, Join;
    var b, t := CleanOf(basepath), CleanOf(targpath);
    CleanNormal(basepath);
    CleanNormal(targpath);
    if Rel(b, t).Some? {
      RelLeadsThere(b, t);
    } else {
      forall rel: string ensures CleanPath(CleanPath(basepath) + "/" + rel) != CleanPath(targpath) {
        NoneLeadsThere(b, t, rel);
        CleanNormal(Show(b) + "/" + rel);
        ShowInjective(CleanOf(Show(b) + "/" + rel), t);
      }
    }
  }
}
