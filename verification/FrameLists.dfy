/**
 The cache's bookkeeping of frames: the free list, the LRU list and the bucket each frame is named for.
 An access touches the frame of a cached bucket and otherwise takes a free frame or the least recently
 used one. The exact condition under which a given frame survives a run of accesses is proved here.
 */
module FrameLists {
  import opened Basics
  import opened LruReplacer

  const CACHE_SIZE: nat := 128

  ghost predicate IsFrame(f: int) {
    0 <= f < CACHE_SIZE
  }

  datatype Lists = Lists(free: seq<int>, lru: seq<int>, ids: seq<int>)

  /** Free list and LRU list partition the frames; free frames hold nothing (-1), and no two frames hold
      the same bucket. */
  ghost predicate WellListed(s: Lists) {
    && |s.ids| == CACHE_SIZE
    && Distinct(s.free) && Distinct(s.lru) && |s.free| + |s.lru| == CACHE_SIZE
    && (forall f :: f in s.free ==> IsFrame(f) && f !in s.lru && s.ids[f] == -1)
    && (forall f :: f in s.lru ==> IsFrame(f) && s.ids[f] != -1)
    && (forall f :: IsFrame(f) ==> f in s.free || f in s.lru)
    && (forall f, h :: IsFrame(f) && IsFrame(h) && f != h && s.ids[f] == s.ids[h] ==> s.ids[f] == -1)
  }

  ghost predicate Cached(s: Lists, b: int) {
    exists f :: 0 <= f < |s.ids| && s.ids[f] == b
  }

  /** The frame a fetch takes: the head of the free list, else the least recently used. */
  ghost function Victim(s: Lists): int {
    if s.free != [] then s.free[0] else if s.lru != [] then s.lru[|s.lru| - 1] else -1
  }

  /** The lists once the victim has been taken for bucket b. */
  ghost function Taken(s: Lists, b: int): Lists {
    var f := Victim(s);
    if s.free != [] then Lists(s.free[1..], Touch(s.lru, f), Put(s.ids, f, b))
    else Lists([], Touch(if s.lru == [] then [] else s.lru[..|s.lru| - 1], f), Put(s.ids, f, b))
  }

  /** The frame an access to bucket b ends up using. */
  ghost function Grab(s: Lists, b: int): int {
    if Cached(s, b) then (var f :| 0 <= f < |s.ids| && s.ids[f] == b; f) else Victim(s)
  }

  ghost function Acquire(s: Lists, b: int): Lists {
    if Cached(s, b) then s.(lru := Touch(s.lru, Grab(s, b))) else Taken(s, b)
  }

  lemma HitWellListed(s: Lists, b: int)
    requires WellListed(s) && b != -1 && Cached(s, b)
    ensures WellListed(Acquire(s, b))
    ensures IsFrame(Grab(s, b)) && Acquire(s, b).ids == s.ids[Grab(s, b) := b]
  {
    var f := Grab(s, b);
    assert f in s.lru;
    TouchDistinct(s.lru, f);
    assert s.ids[f := b] == s.ids;
  }

  lemma TakeFree(s: Lists, b: int)
    requires WellListed(s) && b != -1 && !Cached(s, b) && s.free != []
    ensures WellListed(Taken(s, b))
  {
    var f := s.free[0];
    assert s.free == [f] + s.free[1..];
    assert forall y :: y in s.free <==> y in s.free[1..] || y == f;
    WithoutAbsent(s.lru, f);
    ConsDistinct(f, s.lru);
  }

  lemma TakeLast(s: Lists, b: int)
    requires WellListed(s) && b != -1 && !Cached(s, b) && s.free == []
    ensures WellListed(Taken(s, b))
  {
    var f, rest := s.lru[|s.lru| - 1], s.lru[..|s.lru| - 1];
    assert s.lru == rest + [f];
    assert forall y :: y in s.lru <==> y in rest || y == f;
    assert forall i :: 0 <= i < |rest| ==> s.lru[i] == rest[i];
    assert Distinct(rest) && f !in rest;
    WithoutAbsent(rest, f);
    ConsDistinct(f, rest);
  }

  lemma TakenWellListed(s: Lists, b: int)
    requires WellListed(s) && b != -1 && !Cached(s, b)
    ensures WellListed(Taken(s, b)) && IsFrame(Victim(s))
    ensures Taken(s, b).ids == s.ids[Victim(s) := b]
  {
    if s.free != [] {
      TakeFree(s, b);
    } else {
      TakeLast(s, b);
    }
  }

  lemma AcquireWellListed(s: Lists, b: int)
    requires WellListed(s) && b != -1
    ensures WellListed(Acquire(s, b))
    ensures IsFrame(Grab(s, b)) && Acquire(s, b).ids == s.ids[Grab(s, b) := b]
  {
    if Cached(s, b) {
      HitWellListed(s, b);
    } else {
      TakenWellListed(s, b);
    }
  }

  /** The lists after a run of accesses. */
  ghost function AcquireAll(s: Lists, bs: seq<int>): Lists
    decreases |bs|
  {
    if bs == [] then s else AcquireAll(Acquire(s, bs[0]), bs[1..])
  }

  lemma {:induction false} AcquireAllWellListed(s: Lists, bs: seq<int>)
    requires WellListed(s) && -1 !in bs
    ensures WellListed(AcquireAll(s, bs))
    decreases |bs|
  {
    if bs != [] {
      AcquireWellListed(s, bs[0]);
      AcquireAllWellListed(Acquire(s, bs[0]), bs[1..]);
    }
  }

  lemma {:induction false} AcquireAllSnoc(s: Lists, bs: seq<int>, b: int)
    ensures AcquireAll(s, bs + [b]) == Acquire(AcquireAll(s, bs), b)
    decreases |bs|
  {
    if bs == [] {
      assert AcquireAll(s, [b]) == AcquireAll(Acquire(s, b), [b][1..]);
    } else {
      AcquireAllSnoc(Acquire(s, bs[0]), bs[1..], b);
      assert (bs + [b])[1..] == bs[1..] + [b];
    }
  }

  /** A frame keeps its name or gets that of a bucket accessed. */
  lemma {:induction false} AcquireAllNames(s: Lists, bs: seq<int>, f: int)
    requires WellListed(s) && -1 !in bs && IsFrame(f)
    ensures WellListed(AcquireAll(s, bs))
    ensures AcquireAll(s, bs).ids[f] == s.ids[f] || AcquireAll(s, bs).ids[f] in bs
    decreases |bs|
  {
    if bs != [] {
      AcquireWellListed(s, bs[0]);
      AcquireAllNames(Acquire(s, bs[0]), bs[1..], f);
    }
  }

  // ---------- Frames in a recency window are safe ----------

  /** Taking a frame never takes one of the n < 128 most recently used. */
  lemma TakenRecent(s: Lists, b: int, held: set<int>, n: nat)
    requires WellListed(s) && Recent(s.lru, held, n) && n < CACHE_SIZE
    ensures Victim(s) !in held
    ensures Recent(Taken(s, b).lru, held + {Victim(s)}, n + 1)
  {
    if s.free != [] {
      assert forall x :: x in held ==> x in s.lru;
      RecentTouch(s.lru, held, n, Victim(s));
    } else {
      RecentSparesLast(s.lru, held, n);
      RecentTouch(s.lru[..|s.lru| - 1], held, n, Victim(s));
    }
  }

  lemma AcquireRecent(s: Lists, b: int, held: set<int>, n: nat)
    requires WellListed(s) && b != -1 && Recent(s.lru, held, n) && n < CACHE_SIZE
    ensures IsFrame(Grab(s, b)) && (Grab(s, b) in held ==> s.ids[Grab(s, b)] == b)
    ensures Recent(Acquire(s, b).lru, held + {Grab(s, b)}, n + 1)
  {
    if Cached(s, b) {
      RecentTouch(s.lru, held, n, Grab(s, b));
    } else {
      TakenRecent(s, b, held, n);
    }
  }

  // ---------- The exact condition ----------

  /** The frames used more recently than f. */
  ghost function Before(l: seq<int>, f: int): seq<int> {
    if l == [] || l[0] == f then [] else [l[0]] + Before(l[1..], f)
  }

  ghost function After(l: seq<int>, f: int): seq<int> {
    if |Before(l, f)| < |l| then l[|Before(l, f)| + 1..] else []
  }

  lemma {:induction false} BeforeSplits(l: seq<int>, f: int)
    requires f in l
    ensures |Before(l, f)| < |l| && l[|Before(l, f)|] == f && l[..|Before(l, f)|] == Before(l, f) && f !in Before(l, f)
  {
    if l[0] != f {
      var rest := l[1..];
      assert l == [l[0]] + rest;
      BeforeSplits(rest, f);
      var r := Before(rest, f);
      assert l[..|r| + 1] == [l[0]] + rest[..|r|];
    }
  }

  lemma BeforeAfter(l: seq<int>, f: int)
    requires f in l
    ensures l == Before(l, f) + [f] + After(l, f) && f !in Before(l, f)
  {
    BeforeSplits(l, f);
  }

  lemma BeforeIs(l: seq<int>, f: int, a: seq<int>, c: seq<int>)
    requires l == a + [f] + c && f !in a
    ensures f in l && Before(l, f) == a && After(l, f) == c
  {
    assert l[|a|] == f;
    var r := Before(l, f);
    BeforeAfter(l, f);
    assert l[|r|] == f;
    assert forall i :: 0 <= i < |a| ==> l[i] == a[i] != f;
    assert forall i :: 0 <= i < |r| ==> l[i] == r[i] != f;
  }

  ghost function Names(s: Lists, fs: seq<int>): set<int> {
    set f | f in fs && 0 <= f < |s.ids| :: s.ids[f]
  }

  /** The buckets in frames used more recently than f. */
  ghost function Ahead(s: Lists, f: int): set<int> {
    Names(s, Before(s.lru, f))
  }

  /** How many accesses to buckets not ahead of f the other frames can absorb before f is taken. */
  ghost function Slack(s: Lists, f: int): nat {
    |s.free| + |After(s.lru, f)|
  }

  lemma TouchBefore(l: seq<int>, f: int, h: int)
    requires f in l && h in Before(l, f) && Distinct(l)
    ensures f in Touch(l, h)
    ensures Before(Touch(l, h), f) == [h] + Without(Before(l, f), h) && After(Touch(l, h), f) == After(l, f)
  {
    var a, c := Before(l, f), After(l, f);
    BeforeAfter(l, f);
    SplitWithout(l, a, f, c, h);
    assert h !in c by { NotBoth(l, a, f, c, h); }
    WithoutAbsent(c, h);
    WithoutMembers(a, h);
    BeforeIs(Touch(l, h), f, [h] + Without(a, h), c);
  }

  lemma TouchAfter(l: seq<int>, f: int, h: int)
    requires f in l && h !in Before(l, f) && h != f && Distinct(l)
    ensures f in Touch(l, h)
    ensures Before(Touch(l, h), f) == [h] + Before(l, f)
    ensures |After(Touch(l, h), f)| == |After(l, f)| - if h in After(l, f) then 1 else 0
  {
    var a, c := Before(l, f), After(l, f);
    BeforeAfter(l, f);
    SplitWithout(l, a, f, c, h);
    WithoutAbsent(a, h);
    assert Distinct(c);
    WithoutDistinct(c, h);
    BeforeIs(Touch(l, h), f, [h] + a, Without(c, h));
  }

  lemma SplitWithout(l: seq<int>, a: seq<int>, f: int, c: seq<int>, h: int)
    requires l == a + [f] + c && h != f
    ensures Touch(l, h) == ([h] + Without(a, h)) + [f] + Without(c, h)
  {
    WithoutConcat(a + [f], c, h);
    WithoutConcat(a, [f], h);
    WithoutAbsent([f], h);
  }

  lemma NotBoth(l: seq<int>, a: seq<int>, f: int, c: seq<int>, h: int)
    requires l == a + [f] + c && Distinct(l) && h in a
    ensures h !in c
  {
    var i :| 0 <= i < |a| && a[i] == h;
    assert l[i] == h;
    forall j | 0 <= j < |c| ensures c[j] != h {
      assert l[|a| + 1 + j] == c[j];
    }
  }

  lemma GrabAhead(s: Lists, f: int, b: int)
    requires WellListed(s) && f in s.lru && b in Ahead(s, f)
    ensures Cached(s, b) && b != -1 && Grab(s, b) in Before(s.lru, f) && s.ids[Grab(s, b)] == b
  {
    BeforeAfter(s.lru, f);
    var g :| g in Before(s.lru, f) && IsFrame(g) && s.ids[g] == b;
    assert g in s.lru;
  }

  lemma NamesSame(s: Lists, fs: seq<int>, hs: seq<int>)
    requires |s.ids| == CACHE_SIZE && forall y :: y in fs <==> y in hs
    ensures Names(s, fs) == Names(s, hs)
  {
  }

  /** An access to a bucket already ahead of f changes nothing about f. */
  lemma AccessAhead(s: Lists, f: int, b: int)
    requires WellListed(s) && f in s.lru && b in Ahead(s, f)
    ensures b != -1 && WellListed(Acquire(s, b))
    ensures var s' := Acquire(s, b);
      && s'.ids == s.ids && f in s'.lru
      && Ahead(s', f) == Ahead(s, f) && Slack(s', f) == Slack(s, f)
  {
    GrabAhead(s, f, b);
    HitWellListed(s, b);
    var h, s' := Grab(s, b), Acquire(s, b);
    TouchBefore(s.lru, f, h);
    WithoutMembers(Before(s.lru, f), h);
    NamesSame(s, Before(s'.lru, f), Before(s.lru, f));
  }

  lemma GrabNotAhead(s: Lists, f: int, b: int)
    requires WellListed(s) && f in s.lru && b !in Ahead(s, f) && b != s.ids[f] && b != -1
    ensures Grab(s, b) !in Before(s.lru, f) || (!Cached(s, b) && s.free == [])
    ensures Grab(s, b) == f ==> !Cached(s, b) && s.free == []
    ensures Cached(s, b) ==> Grab(s, b) in After(s.lru, f)
  {
    var h, a := Grab(s, b), Before(s.lru, f);
    BeforeAfter(s.lru, f);
    assert forall y :: y in a ==> y in s.lru;
    forall y | y in a && IsFrame(y) ensures s.ids[y] in Ahead(s, f) {}
    if Cached(s, b) {
      assert s.ids[h] == b && h in s.lru;
      assert h in a + [f] + After(s.lru, f);
    }
  }

  /** Taking a frame for a bucket that is not ahead of f. */
  lemma TakenBehind(s: Lists, f: int, b: int)
    requires WellListed(s) && f in s.lru && Slack(s, f) > 0
    ensures var s', h := Taken(s, b), Victim(s);
      && f in s'.lru && h != f && h !in Before(s.lru, f)
      && Before(s'.lru, f) == [h] + Before(s.lru, f)
      && Slack(s', f) == Slack(s, f) - 1
  {
    var h, l := Victim(s), s.lru;
    if s.free != [] {
      assert h in s.free;
      TouchAbsent(l, f, h);
      assert Taken(s, b).lru == Touch(l, h);
    } else {
      EvictBehind(l, f);
      assert Taken(s, b).lru == Touch(l[..|l| - 1], h);
    }
  }

  /** The list part of an access that is not ahead of f. */
  lemma AccessNewLists(s: Lists, f: int, b: int)
    requires WellListed(s) && f in s.lru && b !in Ahead(s, f) && b != s.ids[f] && b != -1
    requires Slack(s, f) > 0
    ensures var s', h := Acquire(s, b), Grab(s, b);
      && f in s'.lru && h != f && h !in Before(s.lru, f)
      && Before(s'.lru, f) == [h] + Before(s.lru, f)
      && Slack(s', f) == Slack(s, f) - 1
  {
    if Cached(s, b) {
      GrabNotAhead(s, f, b);
      NotBefore(s.lru, f, Grab(s, b));
      TouchAfter(s.lru, f, Grab(s, b));
    } else {
      TakenBehind(s, f, b);
    }
  }

  lemma TouchAbsent(l: seq<int>, f: int, h: int)
    requires f in l && h !in l && Distinct(l)
    ensures f in Touch(l, h) && h != f && h !in Before(l, f)
    ensures Before(Touch(l, h), f) == [h] + Before(l, f) && |After(Touch(l, h), f)| == |After(l, f)|
  {
    BeforeAfter(l, f);
    TouchAfter(l, f, h);
  }

  lemma EvictBehind(l: seq<int>, f: int)
    requires f in l && Distinct(l) && After(l, f) != []
    ensures var h := l[|l| - 1]; var l' := Touch(l[..|l| - 1], h);
      && h != f && h !in Before(l, f) && f in l'
      && Before(l', f) == [h] + Before(l, f) && |After(l', f)| == |After(l, f)| - 1
  {
    LastAfter(l, f);
    var l1, h := l[..|l| - 1], l[|l| - 1];
    NotBefore(l, f, h);
    assert forall i :: 0 <= i < |l1| ==> l1[i] == l[i] != h;
    TouchAbsent(l1, f, h);
  }

  lemma NotBefore(l: seq<int>, f: int, h: int)
    requires f in l && Distinct(l) && h in After(l, f)
    ensures h !in Before(l, f) && h != f
  {
    var a, c := Before(l, f), After(l, f);
    BeforeAfter(l, f);
    var j :| 0 <= j < |c| && c[j] == h;
    assert l[|a| + 1 + j] == h;
    forall i | 0 <= i <= |a| ensures l[i] != h {}
    assert forall i :: 0 <= i < |a| ==> a[i] == l[i];
    assert l[|a|] == f;
  }

  /** Any other access uses up one unit of slack and puts its bucket ahead of f... */
  lemma AccessNew(s: Lists, f: int, b: int)
    requires WellListed(s) && f in s.lru && b !in Ahead(s, f) && b != s.ids[f] && b != -1
    requires Slack(s, f) > 0
    ensures WellListed(Acquire(s, b))
    ensures var s' := Acquire(s, b);
      && f in s'.lru && s'.ids[f] == s.ids[f]
      && Ahead(s', f) == Ahead(s, f) + {b} && Slack(s', f) == Slack(s, f) - 1
  {
    AcquireWellListed(s, b);
    AccessNewLists(s, f, b);
    AheadMembers(s, f);
    NamesCons(s, Acquire(s, b), Grab(s, b), Before(s.lru, f), b);
  }

  lemma AheadMembers(s: Lists, f: int)
    requires WellListed(s) && f in s.lru
    ensures forall y :: y in Before(s.lru, f) ==> IsFrame(y)
  {
    BeforeAfter(s.lru, f);
    assert forall y :: y in Before(s.lru, f) ==> y in s.lru;
  }

  lemma LastAfter(l: seq<int>, f: int)
    requires f in l && After(l, f) != []
    ensures var l1, c := l[..|l| - 1], After(l, f);
      f in l1 && Before(l1, f) == Before(l, f) && After(l1, f) == c[..|c| - 1] && l[|l| - 1] in c
  {
    var a, c := Before(l, f), After(l, f);
    BeforeAfter(l, f);
    assert l[..|l| - 1] == a + [f] + c[..|c| - 1];
    BeforeIs(l[..|l| - 1], f, a, c[..|c| - 1]);
    assert l[|l| - 1] == c[|c| - 1];
  }

  lemma NamesCons(s: Lists, s': Lists, h: int, a: seq<int>, b: int)
    requires |s.ids| == CACHE_SIZE && IsFrame(h)
    requires s'.ids == s.ids[h := b] && h !in a && forall y :: y in a ==> IsFrame(y)
    ensures Names(s', [h] + a) == Names(s, a) + {b}
  {
    forall n ensures n in Names(s', [h] + a) <==> n in Names(s, a) + {b} {
      if n in Names(s, a) { var y :| y in a && s.ids[y] == n; assert y in [h] + a; }
      if n == b { assert h in [h] + a; }
    }
  }

  /** ...and with no slack left it takes f itself. */
  lemma AccessTakes(s: Lists, f: int, b: int)
    requires WellListed(s) && f in s.lru && b !in Ahead(s, f) && b != s.ids[f] && b != -1
    requires Slack(s, f) == 0
    ensures Grab(s, b) == f && Acquire(s, b).ids[f] == b
  {
    BeforeAfter(s.lru, f);
    assert s.lru == Before(s.lru, f) + [f];
    forall h | 0 <= h < |s.ids| ensures s.ids[h] != b {
      if h in s.free {
      } else if h != f {
        assert h in Before(s.lru, f);
      }
    }
  }

  ghost function Elements(bs: seq<int>): set<int> {
    set b | b in bs
  }

  /** Exactly when frame f still holds its bucket after the accesses bs: the distinct buckets among them
      that were not already ahead of f number at most the free frames plus the frames behind f. */
  ghost predicate Survives(s: Lists, f: int, bs: seq<int>) {
    |Elements(bs) - Ahead(s, f)| <= Slack(s, f)
  }

  lemma ElementsCons(b: int, rest: seq<int>)
    ensures Elements([b] + rest) == Elements(rest) + {b}
  {
  }

  lemma SurvivesAhead(s: Lists, f: int, b: int, rest: seq<int>)
    requires WellListed(s) && f in s.lru && b in Ahead(s, f)
    ensures Survives(s, f, [b] + rest) == Survives(Acquire(s, b), f, rest)
  {
    AccessAhead(s, f, b);
    ElementsCons(b, rest);
    assert (Elements(rest) + {b}) - Ahead(s, f) == Elements(rest) - Ahead(s, f);
  }

  lemma SurvivesNew(s: Lists, f: int, b: int, rest: seq<int>)
    requires WellListed(s) && f in s.lru && b !in Ahead(s, f) && b != s.ids[f] && b != -1 && Slack(s, f) > 0
    ensures Survives(s, f, [b] + rest) == Survives(Acquire(s, b), f, rest)
  {
    AccessNew(s, f, b);
    ElementsCons(b, rest);
    SetStep(Elements(rest), Ahead(s, f), b);
  }

  lemma SurvivesNot(s: Lists, f: int, b: int, rest: seq<int>)
    requires b !in Ahead(s, f) && Slack(s, f) == 0
    ensures !Survives(s, f, [b] + rest)
  {
    ElementsCons(b, rest);
    assert b in Elements([b] + rest) - Ahead(s, f);
  }

  lemma {:induction false} SurvivesExactly(s: Lists, f: int, bs: seq<int>)
    requires WellListed(s) && f in s.lru && -1 !in bs && s.ids[f] !in bs
    ensures WellListed(AcquireAll(s, bs))
    ensures AcquireAll(s, bs).ids[f] == s.ids[f] <==> Survives(s, f, bs)
    decreases |bs|
  {
    if bs == [] {
      assert Elements(bs) - Ahead(s, f) == {};
    } else {
      var b, rest := bs[0], bs[1..];
      assert bs == [b] + rest;
      if b in Ahead(s, f) {
        AccessAhead(s, f, b);
        SurvivesAhead(s, f, b, rest);
        SurvivesExactly(Acquire(s, b), f, rest);
      } else if Slack(s, f) > 0 {
        AccessNew(s, f, b);
        SurvivesNew(s, f, b, rest);
        SurvivesExactly(Acquire(s, b), f, rest);
      } else {
        AccessTakes(s, f, b);
        AcquireWellListed(s, b);
        SurvivesNot(s, f, b, rest);
        GoneStaysGone(Acquire(s, b), f, s.ids[f], rest);
      }
    }
  }

  lemma SetStep(rest: set<int>, ahead: set<int>, b: int)
    requires b !in ahead
    ensures |(rest + {b}) - ahead| == |rest - (ahead + {b})| + 1
  {
    assert (rest + {b}) - ahead == (rest - (ahead + {b})) + {b};
  }

  /** A bucket that is not accessed never comes back into a frame. */
  lemma {:induction false} GoneStaysGone(s: Lists, f: int, b: int, bs: seq<int>)
    requires WellListed(s) && IsFrame(f) && s.ids[f] != b && -1 !in bs && b !in bs
    ensures WellListed(AcquireAll(s, bs)) && AcquireAll(s, bs).ids[f] != b
    decreases |bs|
  {
    if bs != [] {
      AcquireWellListed(s, bs[0]);
      GoneStaysGone(Acquire(s, bs[0]), f, b, bs[1..]);
    }
  }

  /** With no free frame, the last frame of the list is lost to the first bucket that is not cached. */
  lemma LastIsLost(s: Lists, f: int, bs: seq<int>, b: int)
    requires WellListed(s) && s.free == [] && s.lru != [] && s.lru[|s.lru| - 1] == f && b in bs && !Cached(s, b)
    ensures !Survives(s, f, bs)
  {
    var l := s.lru;
    assert l == l[..|l| - 1] + [f] + [];
    BeforeIs(l, f, l[..|l| - 1], []);
    AheadMembers(s, f);
    assert b !in Ahead(s, f);
    assert b in Elements(bs) - Ahead(s, f);
  }

  /** A frame accessed among the last few is safe: with the frame at the front, up to 127 further accesses
      leave it in place. */
  lemma FrontSurvives(s: Lists, f: int, bs: seq<int>)
    requires WellListed(s) && f in s.lru && s.lru[0] == f && |bs| < CACHE_SIZE
    ensures Survives(s, f, bs)
  {
    BeforeIs(s.lru, f, [], s.lru[1..]);
    ElementsBound(bs);
    assert |Elements(bs) - Ahead(s, f)| <= |Elements(bs)| by { SubsetSize(Elements(bs) - Ahead(s, f), Elements(bs)); }
  }

  lemma ElementsBound(bs: seq<int>)
    ensures |Elements(bs)| <= |bs|
  {
    if bs == [] {
      assert Elements(bs) == {};
    } else {
      ElementsBound(bs[1..]);
      assert bs == [bs[0]] + bs[1..];
      assert Elements(bs) == Elements(bs[1..]) + {bs[0]};
    }
  }

  lemma SubsetSize(a: set<int>, b: set<int>)
    requires a <= b
    ensures |a| <= |b|
  {
    assert b == a + (b - a);
  }
}
