/** Removing a child from the task tree (src/tasktree.c), on ids: exactly the subtree goes. */
module Removal {
  import opened Traversal
  import Fairness

  /** The list without the first occurrence of `c`. */
  function Rest(s: seq<nat>, c: nat): seq<nat>
    decreases |s|
  {
    if s == [] then [] else if s[0] == c then s[1..] else [s[0]] + Rest(s[1..], c)
  }

  lemma {:induction false} RestAt(s: seq<nat>, c: nat, i: nat)
    requires i <= |s| && (forall k :: 0 <= k < i ==> s[k] != c) && (i < |s| ==> s[i] == c)
    ensures Rest(s, c) == s[..i] + if i < |s| then s[i + 1..] else []
    decreases i
  {
    if s != [] && i > 0 {
      var t := s[1..];
      RestAt(t, c, i - 1);
      assert [s[0]] + t[..i - 1] == s[..i];
      if i < |s| { assert t[i..] == s[i + 1..]; }
    }
  }

  /** The children lists once `c` is taken from the children of `p`. */
  function Removed(kids: seq<seq<nat>>, p: nat, c: nat): seq<seq<nat>>
    requires p < |kids|
  {
    kids[p := Rest(kids[p], c)]
  }

  /** `x`, unless it is in the subtree of `c`. */
  function Survivor(x: nat, parents: seq<nat>, c: nat): seq<nat> {
    if x < |parents| && Under(parents, x, c) then [] else [x]
  }

  /** The ids in `s` outside the subtree of `c`, in order. */
  function Spared(s: seq<nat>, parents: seq<nat>, c: nat): seq<nat>
    decreases |s|
  {
    if s == [] then []
    else Survivor(s[0], parents, c) + Spared(s[1..], parents, c)
  }

  lemma {:induction false} SparedAppend(a: seq<nat>, b: seq<nat>, parents: seq<nat>, c: nat)
    ensures Spared(a + b, parents, c) == Spared(a, parents, c) + Spared(b, parents, c)
    decreases |a|
  {
    hide *;
    if a == [] {
      assert a + b == b;
      SparedEmpty(a, parents, c);
    } else {
      assert (a + b)[0] == a[0] && (a + b)[1..] == a[1..] + b;
      SparedStep(a + b, parents, c);
      SparedStep(a, parents, c);
      SparedAppend(a[1..], b, parents, c);
    }
  }

  lemma SparedStep(s: seq<nat>, parents: seq<nat>, c: nat)
    requires s != []
    ensures Spared(s, parents, c) == Survivor(s[0], parents, c) + Spared(s[1..], parents, c)
  {
  }

  lemma SparedEmpty(s: seq<nat>, parents: seq<nat>, c: nat)
    requires s == []
    ensures Spared(s, parents, c) == []
  {
  }

  lemma {:induction false} SparedNothing(s: seq<nat>, parents: seq<nat>, c: nat)
    requires forall x :: x in s ==> x < |parents| && Under(parents, x, c)
    ensures Spared(s, parents, c) == []
    decreases |s|
  {
    if s != [] {
      assert s[0] in s && forall x :: x in s[1..] ==> x in s;
      SparedNothing(s[1..], parents, c);
    }
  }

  lemma {:induction false} SparedMembers(s: seq<nat>, parents: seq<nat>, c: nat, x: nat)
    ensures x in Spared(s, parents, c) <==> x in s && !(x < |parents| && Under(parents, x, c))
    decreases |s|
  {
    hide Under;
    if s != [] {
      SparedMembers(s[1..], parents, c, x);
    }
  }

  lemma TreeSizes(kids: seq<seq<nat>>, parents: seq<nat>)
    requires Tree(kids, parents)
    ensures |kids| == |parents| && Ranked(kids)
  {
  }

  /** What is left is a forest, and the list of `p` has lost `c` and nothing else. */
  lemma RemovedShape(kids: seq<seq<nat>>, parents: seq<nat>, c: nat) returns (at: nat)
    requires Tree(kids, parents) && 0 < c < |kids|
    ensures var p := parents[c];
            && p < c && at < |kids[p]| && kids[p][at] == c
            && |Removed(kids, p, c)| == |kids| && Ranked(Removed(kids, p, c))
            && Removed(kids, p, c)[p] == kids[p][..at] + kids[p][at + 1..]
            && forall q :: 0 <= q < |kids| && q != p ==> Removed(kids, p, c)[q] == kids[q]
  {
    at := PlaceOf(kids, parents, c);
    hide Tree, Ranked, Rest;
    TreeSizes(kids, parents);
    RestAt(kids[parents[c]], c, at);
    StillRanked(kids, parents[c], at);
  }

  /** A task is once among its parent's children. */
  lemma PlaceOf(kids: seq<seq<nat>>, parents: seq<nat>, c: nat) returns (at: nat)
    requires Tree(kids, parents) && 0 < c < |kids|
    ensures parents[c] < c && at < |kids[parents[c]]| && kids[parents[c]][at] == c
    ensures forall k :: 0 <= k < at ==> kids[parents[c]][k] != c
  {
    at :| at < |kids[parents[c]]| && kids[parents[c]][at] == c;
  }

  lemma StillRanked(kids: seq<seq<nat>>, p: nat, at: nat)
    requires Ranked(kids) && p < |kids| && at < |kids[p]|
    ensures Ranked(kids[p := kids[p][..at] + kids[p][at + 1..]])
  {
    var k := kids[p := kids[p][..at] + kids[p][at + 1..]];
    forall q, i | 0 <= q < |k| && 0 <= i < |k[q]| ensures q < k[q][i] < |k|
    {
      if q == p { assert k[q][i] == kids[q][if i < at then i else i + 1]; }
    }
  }

  /** Removing task `c` removes exactly its subtree: the preorder of what is left is the old preorder with the
      subtree of `c` taken out, so all other tasks stay, in the same order. */
  lemma {:induction false} RemovesTheSubtree(kids: seq<seq<nat>>, parents: seq<nat>, c: nat, id: nat)
    requires Tree(kids, parents) && 0 < c < |kids| && id < |kids| && !Under(parents, id, c)
    ensures parents[c] < |kids| && Ranked(Removed(kids, parents[c], c))
    ensures Preorder(Removed(kids, parents[c], c), id) == Spared(Preorder(kids, id), parents, c)
    decreases |kids| - id, 1, 0
  {
    hide Under, Removed, Tree, PreorderFrom;
    TreeSizes(kids, parents);
    var at := RemovedShape(kids, parents, c);
    RemovesFrom(kids, parents, c, at, id, 0);
    var all := Preorder(kids, id);
    assert all[0] == id && all[1..] == PreorderFrom(kids, id, 0);
  }

  /** Where child `i` of `id` is once the child `at` of `p` is gone. */
  function Moved(id: nat, p: nat, at: nat, i: nat): nat {
    if id == p && i > at then i - 1 else i
  }

  lemma {:induction false} RemovesFrom(kids: seq<seq<nat>>, parents: seq<nat>, c: nat, at: nat, id: nat, i: nat)
    requires Tree(kids, parents) && 0 < c < |kids| && id < |kids| && !Under(parents, id, c)
    requires parents[c] < |kids| && at < |kids[parents[c]]| && kids[parents[c]][at] == c && i <= |kids[id]|
    requires Ranked(Removed(kids, parents[c], c))
    ensures PreorderFrom(Removed(kids, parents[c], c), id, Moved(id, parents[c], at, i))
            == Spared(PreorderFrom(kids, id, i), parents, c)
    decreases |kids| - id, 0, |kids[id]| - i
  {
    hide Spared, Removed, Preorder, PreorderFrom, Under, Tree;
    TreeSizes(kids, parents);
    var k, p := Removed(kids, parents[c], c), parents[c];
    var at' := RemovedShape(kids, parents, c);
    SamePlace(kids, parents, c, at, at');
    PreorderUnfold(kids, id, i);
    PreorderUnfold(k, id, Moved(id, p, at, i));
    if i < |kids[id]| {
      var d := kids[id][i];
      KidIsUnder(kids, parents, id, i);
      RemovesFrom(kids, parents, c, at, id, i + 1);
      SparedAppend(Preorder(kids, d), PreorderFrom(kids, id, i + 1), parents, c);
      if d == c {
        SparedSubtree(kids, parents, c);
        SamePlace(kids, parents, c, at, i);
        assert Moved(id, p, at, i + 1) == i;
      } else {
        NotBelow(parents, d, c, id);
        RemovesTheSubtree(kids, parents, c, d);
        assert k[id][Moved(id, p, at, i)] == d && Moved(id, p, at, i + 1) == Moved(id, p, at, i) + 1;
      }
    } else {
      SparedNothing([], parents, c);
    }
  }

  lemma PreorderUnfold(kids: seq<seq<nat>>, id: nat, i: nat)
    requires Ranked(kids) && id < |kids|
    ensures PreorderFrom(kids, id, i)
            == if i >= |kids[id]| then [] else Preorder(kids, kids[id][i]) + PreorderFrom(kids, id, i + 1)
  {
    hide Preorder;
  }

  lemma SparedSubtree(kids: seq<seq<nat>>, parents: seq<nat>, c: nat)
    requires Tree(kids, parents) && c < |kids|
    ensures Spared(Preorder(kids, c), parents, c) == []
  {
    hide Preorder, Under;
    forall x | x in Preorder(kids, c) ensures x < |parents| && Under(parents, x, c)
    {
      Fairness.PreorderMembers(kids, parents, c, x);
    }
    SparedNothing(Preorder(kids, c), parents, c);
  }

  lemma SamePlace(kids: seq<seq<nat>>, parents: seq<nat>, c: nat, i: nat, j: nat)
    requires Tree(kids, parents) && 0 < c < |kids| && parents[c] < |kids|
    requires i < |kids[parents[c]]| && j < |kids[parents[c]]| && kids[parents[c]][i] == kids[parents[c]][j] == c
    ensures i == j
  {
  }

  lemma NotBelow(parents: seq<nat>, d: nat, c: nat, id: nat)
    requires d < |parents| && parents[d] == id < |parents| && d != c && !Under(parents, id, c)
    ensures !Under(parents, d, c)
  {
  }

  /** After the removal the tree holds exactly the tasks outside the subtree. */
  lemma RemovedMembers(kids: seq<seq<nat>>, parents: seq<nat>, c: nat, x: nat)
    requires Tree(kids, parents) && 0 < c < |kids|
    ensures parents[c] < |kids| && Ranked(Removed(kids, parents[c], c))
    ensures x in Preorder(Removed(kids, parents[c], c), 0) <==> x < |kids| && !Under(parents, x, c)
  {
    hide Preorder, Removed;
    RemovesTheSubtree(kids, parents, c, 0);
    SparedMembers(Preorder(kids, 0), parents, c, x);
    Fairness.PreorderMembers(kids, parents, 0, x);
    if x < |kids| { UnderRoot(kids, parents, x); }
  }
}
