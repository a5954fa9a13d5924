/**
 The LRU replacer: a doubly linked list of frames, most recent first, and a map from
 frame to list node. Also the theory of the list that the cache proofs use.
 */
module LruReplacer {
  import opened Basics

  // ---------- Lists of frames ----------

  function Without(s: seq<int>, x: int): seq<int> {
    if s == [] then []
    else if s[0] == x then Without(s[1..], x)
    else [s[0]] + Without(s[1..], x)
  }

  /** The list after frame x has been accessed. */
  function Touch(s: seq<int>, x: int): seq<int> {
    [x] + Without(s, x)
  }

  lemma WithoutMembers(s: seq<int>, x: int)
    ensures forall y :: y in Without(s, x) <==> y in s && y != x
    ensures |Without(s, x)| <= |s|
  {
  }

  lemma WithoutAbsent(s: seq<int>, x: int)
    requires x !in s
    ensures Without(s, x) == s
  {
  }

  lemma WithoutConcat(s: seq<int>, t: seq<int>, x: int)
    ensures Without(s + t, x) == Without(s, x) + Without(t, x)
  {
    if s == [] {
      assert s + t == t;
    } else {
      assert (s + t)[1..] == s[1..] + t;
      WithoutConcat(s[1..], t, x);
    }
  }

  lemma {:induction false} WithoutDistinct(s: seq<int>, x: int)
    requires Distinct(s)
    ensures Distinct(Without(s, x))
    ensures |Without(s, x)| == if x in s then |s| - 1 else |s|
  {
    if s != [] {
      assert Distinct(s[1..]);
      WithoutDistinct(s[1..], x);
      WithoutMembers(s[1..], x);
      assert s[0] !in s[1..];
      if s[0] == x {
        WithoutAbsent(s[1..], x);
      }
    }
  }

  lemma ConsDistinct(x: int, s: seq<int>)
    requires Distinct(s) && x !in s
    ensures Distinct([x] + s)
  {
    var t := [x] + s;
    forall i, j | 0 <= i < j < |t| ensures t[i] != t[j] {
      assert t[j] == s[j - 1];
      if i > 0 { assert t[i] == s[i - 1]; }
    }
  }

  lemma TouchDistinct(s: seq<int>, x: int)
    requires Distinct(s)
    ensures Distinct(Touch(s, x))
    ensures forall y :: y in Touch(s, x) <==> y in s || y == x
    ensures |Touch(s, x)| == if x in s then |s| else |s| + 1
  {
    WithoutDistinct(s, x);
    WithoutMembers(s, x);
  }

  /** All of `held` is among the n most recently used frames. */
  ghost predicate Recent(s: seq<int>, held: set<int>, n: nat) {
    forall x :: x in held ==> exists i :: 0 <= i < n && i < |s| && s[i] == x
  }

  /** Accessing a frame pushes the held frames back by at most one place. */
  lemma RecentTouch(s: seq<int>, held: set<int>, n: nat, x: int)
    requires Distinct(s) && Recent(s, held, n)
    ensures Recent(Touch(s, x), held + {x}, n + 1)
  {
    forall y | y in held + {x}
      ensures exists i :: 0 <= i < n + 1 && i < |Touch(s, x)| && Touch(s, x)[i] == y
    {
      if y == x {
        assert Touch(s, x)[0] == x;
      } else {
        var i :| 0 <= i < n && i < |s| && s[i] == y;
        var j := WithoutIndex(s, x, i);
        assert Touch(s, x)[j + 1] == y;
      }
    }
  }

  lemma WithoutIndex(s: seq<int>, x: int, i: nat) returns (j: nat)
    requires i < |s| && s[i] != x
    ensures j <= i && j < |Without(s, x)| && Without(s, x)[j] == s[i]
  {
    if i == 0 {
      j := 0;
    } else {
      j := WithoutIndex(s[1..], x, i - 1);
      if s[0] != x { j := j + 1; }
    }
  }

  /** The least recently used frame is not held while the list is longer than the window. */
  lemma RecentSparesLast(s: seq<int>, held: set<int>, n: nat)
    requires Distinct(s) && Recent(s, held, n) && n < |s|
    ensures s[|s| - 1] !in held
    ensures Recent(s[..|s| - 1], held, n)
  {
    forall y | y in held
      ensures y != s[|s| - 1]
      ensures var t := s[..|s| - 1]; exists i :: 0 <= i < n && i < |t| && t[i] == y
    {
      var i :| 0 <= i < n && i < |s| && s[i] == y;
      assert s[..|s| - 1][i] == y;
    }
  }

  // ---------- Access histories ----------

  datatype LruOp = Access(frame: int) | Evict

  /** The list after a history of operations, starting empty. */
  ghost function ListAfter(h: seq<LruOp>): seq<int> {
    if h == [] then []
    else
      var before := ListAfter(h[..|h| - 1]);
      match h[|h| - 1]
      case Access(f) => Touch(before, f)
      case Evict => if before == [] then [] else before[..|before| - 1]
  }

  /** When frame f was last accessed in a history; -1 if never. */
  ghost function LastUse(h: seq<LruOp>, f: int): int {
    if h == [] then -1
    else if h[|h| - 1] == Access(f) then |h| - 1
    else LastUse(h[..|h| - 1], f)
  }

  lemma LastUseBound(h: seq<LruOp>, f: int)
    ensures -1 <= LastUse(h, f) < |h|
  {
  }

  /** Listed from the most to the least recent access. */
  ghost predicate ByRecency(h: seq<LruOp>, s: seq<int>) {
    && (forall i :: 0 <= i < |s| ==> LastUse(h, s[i]) >= 0)
    && (forall i, j :: 0 <= i < j < |s| ==> LastUse(h, s[i]) > LastUse(h, s[j]))
  }

  lemma ConsByRecency(h: seq<LruOp>, x: int, w: seq<int>)
    requires ByRecency(h, w) && LastUse(h, x) >= 0
    requires forall i :: 0 <= i < |w| ==> LastUse(h, x) > LastUse(h, w[i])
    ensures ByRecency(h, [x] + w)
  {
    var t := [x] + w;
    forall i, j | 0 <= i < j < |t| ensures LastUse(h, t[i]) > LastUse(h, t[j]) {
      assert t[j] == w[j - 1];
      if i > 0 { assert t[i] == w[i - 1]; }
    }
  }

  lemma {:induction false} WithoutByRecency(h: seq<LruOp>, s: seq<int>, x: int)
    requires ByRecency(h, s)
    ensures ByRecency(h, Without(s, x))
  {
    if s != [] {
      var rest := s[1..];
      assert forall i :: 0 <= i < |rest| ==> rest[i] == s[i + 1];
      WithoutByRecency(h, rest, x);
      if s[0] != x {
        var w := Without(rest, x);
        forall i | 0 <= i < |w| ensures LastUse(h, s[0]) > LastUse(h, w[i]) {
          WithoutMembers(rest, x);
          assert w[i] in rest;
        }
        ConsByRecency(h, s[0], w);
      }
    }
  }

  lemma AccessByRecency(h: seq<LruOp>, s: seq<int>, f: int)
    requires ByRecency(h, s) && f !in s
    ensures ByRecency(h + [Access(f)], [f] + s)
  {
    var h1, t := h + [Access(f)], [f] + s;
    assert h1[..|h1| - 1] == h;
    forall i | 0 <= i < |t| ensures LastUse(h1, t[i]) == if i == 0 then |h| else LastUse(h, s[i - 1]) {
      if i > 0 { assert t[i] == s[i - 1] != f; }
    }
    forall i | 0 <= i < |s| { LastUseBound(h, s[i]); }
  }

  /** In every history the list is ordered by last access: whatever is evicted next, all other listed
      frames have been accessed after it. */
  lemma {:induction false} ListByRecency(h: seq<LruOp>)
    ensures ByRecency(h, ListAfter(h))
  {
    if h != [] {
      var h0, l0 := h[..|h| - 1], ListAfter(h[..|h| - 1]);
      ListByRecency(h0);
      match h[|h| - 1]
      case Evict =>
        forall f ensures LastUse(h, f) == LastUse(h0, f) {}
      case Access(f) =>
        WithoutByRecency(h0, l0, f);
        WithoutMembers(l0, f);
        AccessByRecency(h0, Without(l0, f), f);
        assert h == h0 + [Access(f)];
    }
  }

  // ---------- The replacer object ----------

  /** A list node; `id` stands for the node's address, which an iterator keeps. */
  datatype Node = Node(id: nat, frame: int)

  function Frames(s: seq<Node>): (r: seq<int>) {
    seq(|s|, i requires 0 <= i < |s| => s[i].frame)
  }

  function EraseNode(s: seq<Node>, id: nat): seq<Node> {
    if s == [] then []
    else if s[0].id == id then s[1..]
    else [s[0]] + EraseNode(s[1..], id)
  }

  function Ids(s: seq<Node>): (r: seq<int>) {
    seq(|s|, i requires 0 <= i < |s| => s[i].id)
  }

  ghost predicate DistinctNodes(s: seq<Node>) {
    Distinct(Ids(s)) && Distinct(Frames(s))
  }

  lemma {:induction false} EraseAt(s: seq<Node>, k: nat)
    requires k < |s| && Distinct(Ids(s))
    ensures EraseNode(s, s[k].id) == s[..k] + s[k + 1..]
  {
    assert Ids(s)[0] == s[0].id && Ids(s)[k] == s[k].id;
    if k > 0 {
      assert s[1..][k - 1] == s[k];
      assert Ids(s[1..]) == Ids(s)[1..];
      EraseAt(s[1..], k - 1);
      assert s[..k] + s[k + 1..] == [s[0]] + (s[1..][..k - 1] + s[1..][k..]);
    }
  }

  lemma {:induction false} WithoutAt(s: seq<int>, k: nat)
    requires k < |s| && Distinct(s)
    ensures Without(s, s[k]) == s[..k] + s[k + 1..]
  {
    assert s == s[..k] + ([s[k]] + s[k + 1..]);
    WithoutConcat(s[..k], [s[k]] + s[k + 1..], s[k]);
    WithoutAbsent(s[..k], s[k]);
    WithoutConcat([s[k]], s[k + 1..], s[k]);
    WithoutAbsent(s[k + 1..], s[k]);
  }

  lemma NodeFrame(s: seq<Node>, n: Node)
    requires n in s
    ensures n.frame in Frames(s) && n.id in Ids(s)
  {
    var i :| 0 <= i < |s| && s[i] == n;
    assert Frames(s)[i] == n.frame && Ids(s)[i] == n.id;
  }

  /** Erasing through an iterator removes that frame's entry and nothing else. */
  lemma EraseRemoves(s: seq<Node>, k: nat)
    requires k < |s| && DistinctNodes(s)
    ensures var t := EraseNode(s, s[k].id);
      && Frames(t) == Without(Frames(s), s[k].frame)
      && Ids(t) == Without(Ids(s), s[k].id)
      && forall n :: n in t ==> n in s
  {
    EraseAt(s, k);
    CutOut(s, k);
    WithoutAt(Frames(s), k);
    WithoutAt(Ids(s), k);
  }

  lemma CutOut(s: seq<Node>, k: nat)
    requires k < |s|
    ensures var t := s[..k] + s[k + 1..];
      && Frames(t) == Frames(s)[..k] + Frames(s)[k + 1..]
      && Ids(t) == Ids(s)[..k] + Ids(s)[k + 1..]
      && forall n :: n in t ==> n in s
  {
    var t := s[..k] + s[k + 1..];
    assert Frames(t) == Frames(s)[..k] + Frames(s)[k + 1..];
    assert Ids(t) == Ids(s)[..k] + Ids(s)[k + 1..];
  }

  /** The map holds exactly the listed frames, each with its own node. */
  ghost predicate Indexed(s: seq<Node>, nodeOf: map<int, nat>) {
    && (forall n :: n in s ==> n.frame in nodeOf && nodeOf[n.frame] == n.id)
    && (forall f :: f in nodeOf ==> f in Frames(s))
  }

  lemma Push(s: seq<Node>, n: Node)
    requires DistinctNodes(s) && n.id !in Ids(s) && n.frame !in Frames(s)
    ensures DistinctNodes([n] + s)
    ensures Frames([n] + s) == [n.frame] + Frames(s)
    ensures Ids([n] + s) == [n.id] + Ids(s)
  {
    assert Frames([n] + s) == [n.frame] + Frames(s);
    assert Ids([n] + s) == [n.id] + Ids(s);
    ConsDistinct(n.frame, Frames(s));
    ConsDistinct(n.id, Ids(s));
  }

  class Replacer {
    var lru: seq<Node>
    var nodeOf: map<int, nat>
    var nextId: nat

    ghost predicate Valid()
      reads this
    {
      && (forall i :: i in Ids(lru) ==> i < nextId)
      && DistinctNodes(lru)
      && Indexed(lru, nodeOf)
    }

    ghost function List(): seq<int>
      reads this
    {
      Frames(lru)
    }

    constructor ()
      ensures Valid() && List() == []
    {
      lru, nodeOf, nextId := [], map[], 0;
    }

    method RecordAccess(frame: int)
      requires Valid()
      modifies this
      ensures Valid() && List() == Touch(old(List()), frame)
    {
      if frame in nodeOf {
        ghost var k :| 0 <= k < |lru| && lru[k].frame == frame;
        EraseRemoves(lru, k);
        WithoutMembers(Ids(lru), lru[k].id);
        WithoutDistinct(Ids(lru), lru[k].id);
        WithoutDistinct(Frames(lru), lru[k].frame);
        assert lru[k] in lru;
        lru := EraseNode(lru, nodeOf[frame]);
      } else {
        WithoutAbsent(Frames(lru), frame);
      }
      WithoutMembers(old(List()), frame);
      assert Frames(lru) == Without(old(List()), frame);
      forall n | n in lru ensures n.frame != frame { NodeFrame(lru, n); }
      Push(lru, Node(nextId, frame));
      lru := [Node(nextId, frame)] + lru;
      nodeOf := nodeOf[frame := nextId];
      nextId := nextId + 1;
    }

    /** Yields -1 from an empty list, otherwise the least recently used frame. */
    method Evict() returns (frame: int)
      requires Valid()
      modifies this
      ensures Valid()
      ensures old(List()) == [] ==> frame == -1 && List() == []
      ensures old(List()) != [] ==> frame == old(List())[|old(List())| - 1] && List() == old(List())[..|old(List())| - 1]
    {
      if lru == [] {
        frame := -1;
        return;
      }
      frame := lru[|lru| - 1].frame;
      lru := lru[..|lru| - 1];
      nodeOf := nodeOf - {frame};
      assert Frames(lru) == old(List())[..|old(List())| - 1];
      assert Ids(lru) == Ids(old(lru))[..|lru|];
      assert old(List()) == Frames(lru) + [frame];
      assert forall i :: 0 <= i < |lru| ==> old(List())[i] != old(List())[|lru|];
      assert forall i :: i in Ids(lru) ==> i in Ids(old(lru));
      forall n | n in lru ensures n in old(lru) && n.frame != frame { NodeFrame(lru, n); }
    }
  }
}
