/** Stage 1 of the archiver: which items go on to be hashed, and which are linked to an earlier one
    (client/archiver/archiver.go:415-479). */
module ArchiverDedupe {

  import opened ArchiverHandoff

  /** The items to be hashed among the first m, in the order they were pushed. */
  function Firsts(paths: seq<string>, m: nat): seq<nat>
    requires m <= |paths|
  {
    if m == 0 then []
    else Firsts(paths, m - 1) + if First(paths, m - 1) == m - 1 then [m - 1] else []
  }

  /** The calls of link: an item and the first of the same file. */
  function Links(paths: seq<string>, m: nat): seq<(nat, nat)>
    requires m <= |paths|
  {
    if m == 0 then []
    else Links(paths, m - 1) + if First(paths, m - 1) != m - 1 then [(First(paths, m - 1), m - 1)] else []
  }

  lemma {:induction false} FirstsAre(paths: seq<string>, m: nat, c: nat)
    requires m <= |paths|
    ensures c in Firsts(paths, m) <==> c < m && First(paths, c) == c
  {
    hide First;
    if m > 0 {
      FirstsAre(paths, m - 1, c);
    }
  }

  lemma {:induction false} LinksAre(paths: seq<string>, m: nat, p: nat, c: nat)
    requires m <= |paths|
    ensures (p, c) in Links(paths, m) <==> c < m && p == First(paths, c) && p != c
  {
    hide First;
    if m > 0 {
      LinksAre(paths, m - 1, p, c);
    }
  }

  /** Items that are not files are all hashed; of every file exactly the earliest item is hashed, and
      every other one is linked to that. */
  lemma DedupeExact(paths: seq<string>, m: nat, c: nat)
    requires c < m <= |paths|
    ensures c in Firsts(paths, m) <==> paths[c] == "" || forall j | 0 <= j < c :: paths[j] != paths[c]
    ensures forall p :: (p, c) in Links(paths, m) <==> p == First(paths, c) && p != c
    ensures forall j | 0 <= j < First(paths, c) :: paths[c] != "" ==> paths[j] != paths[c]
  {
    if paths[c] != "" {
      FirstFromLeast(paths, c, 0);
    }
    FirstsAre(paths, m, c);
    forall p: nat ensures (p, c) in Links(paths, m) <==> p == First(paths, c) && p != c {
      LinksAre(paths, m, p, c);
    }
  }

  /** What `seen` has for the first m items: for a file its first item. */
  ghost predicate Seen(seen: map<string, nat>, paths: seq<string>, m: nat)
    requires m <= |paths|
  {
    && (forall c | 0 <= c < m && paths[c] != "" :: paths[c] in seen && seen[paths[c]] == First(paths, c))
    && (forall path | path in seen && path != "" :: exists c :: 0 <= c < m && paths[c] == path)
  }

  lemma SeenNext(seen: map<string, nat>, paths: seq<string>, m: nat)
    requires m < |paths| && Seen(seen, paths, m)
    ensures paths[m] != "" && paths[m] in seen ==>
      seen[paths[m]] == First(paths, m) != m && Seen(seen, paths, m + 1)
    ensures paths[m] == "" || paths[m] !in seen ==>
      First(paths, m) == m && Seen(seen[paths[m] := m], paths, m + 1)
  {
    if paths[m] != "" {
      FirstFromLeast(paths, m, 0);
      forall c | 0 <= c < m && paths[c] == paths[m] ensures First(paths, c) == First(paths, m) {
        FirstFromSame(paths, c, m, 0);
      }
    }
  }

  lemma MoveOne(forwarded: seq<nat>, buildUp: seq<nat>)
    requires buildUp != []
    ensures (forwarded + [buildUp[0]]) + buildUp[1..] == forwarded + buildUp
  {
  }

  /** Stage 2 takes some of the items that have built up. */
  method Take(forwarded: seq<nat>, buildUp: seq<nat>, most: nat) returns (forwarded': seq<nat>, buildUp': seq<nat>)
    ensures forwarded' + buildUp' == forwarded + buildUp
    ensures |buildUp'| == if most < |buildUp| then |buildUp| - most else 0
  {
    forwarded', buildUp' := forwarded, buildUp;
    var left := most;
    while left > 0 && |buildUp'| > 0
      invariant forwarded' + buildUp' == forwarded + buildUp
      invariant 0 <= left <= most && |buildUp'| + (most - left) == |buildUp|
    {
      MoveOne(forwarded', buildUp');
      forwarded', buildUp' := forwarded' + [buildUp'[0]], buildUp'[1..];
      left := left - 1;
    }
  }

  lemma NextItem(paths: seq<string>, m: nat, forwarded: seq<nat>, buildUp: seq<nat>)
    requires m < |paths| && forwarded + buildUp == Firsts(paths, m)
    ensures First(paths, m) == m ==>
      forwarded + (buildUp + [m]) == Firsts(paths, m + 1) && Links(paths, m + 1) == Links(paths, m)
    ensures First(paths, m) != m ==>
      Firsts(paths, m + 1) == Firsts(paths, m) && Links(paths, m + 1) == Links(paths, m) + [(First(paths, m), m)]
  {
    hide First;
    assert forwarded + (buildUp + [m]) == (forwarded + buildUp) + [m];
    assert Firsts(paths, m) + [] == Firsts(paths, m) && Links(paths, m) + [] == Links(paths, m);
  }

  /** The items from m to n. */
  function From(m: nat, n: nat): (r: seq<nat>)
    requires m <= n
    ensures |r| == n - m && forall i | 0 <= i < |r| :: r[i] == m + i
  {
    seq(n - m, i requires 0 <= i => m + i)
  }

  function Least(a: nat, b: nat): (r: nat)
    ensures r <= a && r <= b && (r == a || r == b)
  {
    if a < b then a else b
  }

  /** stage1DedupeLoop: stage 2 takes up to `sends[m]` items from the build-up before item m arrives.
      The archiver may be cancelled: item `stop` and all later ones find it so, or, at the end, all but
      the first `late` items that have built up. The dropped items get the error and are released. */
  method DedupeLoop(paths: seq<string>, sends: seq<nat>, stop: nat, late: nat)
    returns (forwarded: seq<nat>, links: seq<(nat, nat)>, dropped: seq<nat>, ghost unsent: seq<nat>)
    requires |sends| == |paths|
    ensures var m := Least(stop, |paths|);
      && forwarded + unsent == Firsts(paths, m)
      && links == Links(paths, m)
      && dropped == From(m, |paths|) + unsent
    ensures stop >= |paths| && late >= |paths| ==> unsent == []
  {
    hide Deduped, From;
    var seen: map<string, nat> := map[];
    var buildUp: seq<nat> := [];
    forwarded, links, dropped := [], [], [];
    NothingDeduped(paths, seen, forwarded, buildUp, links, dropped);
    var m := 0;
    while m < |paths|
      invariant 0 <= m <= |paths| && |buildUp| <= m
      invariant Deduped(paths, Least(stop, m), seen, forwarded + buildUp, links)
      invariant dropped == From(Least(stop, m), m)
    {
      forwarded, buildUp := Take(forwarded, buildUp, sends[m]);
      if m >= stop {
        FromSnoc(stop, m);
        dropped := dropped + [m];
      } else {
        DedupeStep(paths, m, seen, forwarded, buildUp, links);
        FromNone(m);
        if paths[m] != "" && paths[m] in seen {
          links := links + [(seen[paths[m]], m)];
        } else {
          buildUp := buildUp + [m];
          seen := seen[paths[m] := m];
        }
      }
      m := m + 1;
    }
    DedupedIs(paths, Least(stop, m), seen, forwarded + buildUp, links);
    forwarded, buildUp := Take(forwarded, buildUp, if stop < |paths| then 0 else late);
    unsent := buildUp;
    dropped := dropped + buildUp;
  }

  /** The first m items have been dealt with: `taken` are forwarded, or have built up. */
  ghost predicate Deduped(paths: seq<string>, m: nat, seen: map<string, nat>, taken: seq<nat>, links: seq<(nat, nat)>)
  {
    m <= |paths| && Seen(seen, paths, m) && taken == Firsts(paths, m) && links == Links(paths, m)
  }

  lemma NothingDeduped(paths: seq<string>, seen: map<string, nat>, forwarded: seq<nat>, buildUp: seq<nat>,
                       links: seq<(nat, nat)>, dropped: seq<nat>)
    requires seen == map[] && forwarded == buildUp == dropped == [] && links == []
    ensures Deduped(paths, 0, seen, forwarded + buildUp, links) && dropped == From(0, 0)
  {
  }

  lemma DedupeStep(paths: seq<string>, m: nat, seen: map<string, nat>, forwarded: seq<nat>, buildUp: seq<nat>,
                   links: seq<(nat, nat)>)
    requires m < |paths| && Deduped(paths, m, seen, forwarded + buildUp, links)
    ensures paths[m] != "" && paths[m] in seen ==>
      Deduped(paths, m + 1, seen, forwarded + buildUp, links + [(seen[paths[m]], m)])
    ensures paths[m] == "" || paths[m] !in seen ==>
      Deduped(paths, m + 1, seen[paths[m] := m], forwarded + (buildUp + [m]), links)
  {
    hide First, Seen, Firsts, Links;
    SeenNext(seen, paths, m);
    NextItem(paths, m, forwarded, buildUp);
  }

  lemma DedupedIs(paths: seq<string>, m: nat, seen: map<string, nat>, taken: seq<nat>, links: seq<(nat, nat)>)
    requires Deduped(paths, m, seen, taken, links)
    ensures m <= |paths| && taken == Firsts(paths, m) && links == Links(paths, m)
  {
  }

  lemma FromSnoc(a: nat, b: nat)
    requires a <= b
    ensures From(a, b) + [b] == From(a, b + 1)
  {
  }

  lemma FromNone(a: nat)
    ensures From(a, a) == [] == From(a + 1, a + 1)
  {
  }

  /** The links are the lists the items end up with. */
  lemma {:induction false} LinksAreChildren(paths: seq<string>, m: nat, p: nat, c: nat)
    requires m <= |paths|
    ensures (p, c) in Links(paths, m) <==> c in Children(paths, p, m)
  {
    if m > 0 {
      LinksAreChildren(paths, m - 1, p, c);
    }
  }
}
