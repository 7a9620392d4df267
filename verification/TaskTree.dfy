/** The task tree of src/tasktree.c: nodes with a growing array of children. */
module TaskTree {
  import opened Bytes
  import opened ByteStack
  import Inbox
  import Removal

  /** `Task` of src/task.h: two stacks, an inbox, the `ip` saved at the last context switch. */
  class Task {
    const id: nat
    const opstack: Stack
    const stack: Stack
    const inbox: Inbox.MessageQueue
    const handler: word
    var ip: word
    var active: bool

    constructor (id: nat, ip: word, opstack: Stack, stack: Stack, inbox: Inbox.MessageQueue, handler: word)
      ensures this.id == id && this.ip == ip && this.opstack == opstack && this.stack == stack
      ensures this.inbox == inbox && this.handler == handler && !active
    {
      this.id, this.ip, this.opstack, this.stack, this.inbox, this.handler := id, ip, opstack, stack, inbox, handler;
      active := false;
    }
  }

  class TaskTreeNode {
    const id: nat
    const task: Task
    var parent: TaskTreeNode?
    var children: array<TaskTreeNode?>
    var childCount: nat

    /** The capacity is the length of the array: 0, or 2 doubled some number of times. */
    ghost predicate Valid()
      reads this, children
    {
      && childCount <= children.Length
      && IsCapacity(children.Length)
      && forall i :: 0 <= i < childCount ==> children[i] != null
    }

    /** The children in order. */
    ghost function Kids(): (s: seq<TaskTreeNode>)
      requires Valid()
      reads this, children
      ensures |s| == childCount && forall i :: 0 <= i < childCount ==> s[i] == children[i]
    {
      seq(childCount, i requires 0 <= i < childCount reads this, children requires Valid() => children[i])
    }

    /** `task_tree_create_node`. */
    constructor (id: nat, task: Task)
      ensures Valid() && Kids() == [] && this.id == id && this.task == task && parent == null && fresh(children)
    {
      this.id, this.task := id, task;
      parent, childCount := null, 0;
      children := new TaskTreeNode?[0];
    }

    /** `task_tree_add_child`: a full array is reallocated with twice the capacity. */
    method AddChild(child: TaskTreeNode)
      requires Valid() && child != this
      modifies this`children, this`childCount, children, child`parent
      ensures Valid() && Kids() == old(Kids()) + [child] && child.parent == this
      ensures children == old(children) || fresh(children)
      ensures children.Length == if old(childCount) < old(children.Length) then old(children.Length)
                                 else if old(children.Length) == 0 then 2 else old(children.Length) * 2
    {
      ghost var before := Kids();
      child.parent := this;
      if childCount == children.Length {
        Grow();
      }
      children[childCount] := child;
      childCount := childCount + 1;
      assert Kids() == before + [child];
    }

    /** The reallocation. */
    method Grow()
      requires Valid() && childCount == children.Length
      modifies this`children
      ensures Valid() && childCount < children.Length && Kids() == old(Kids()) && fresh(children)
      ensures children.Length == if old(children.Length) == 0 then 2 else old(children.Length) * 2
    {
      ghost var before := Kids();
      var capacity := if children.Length == 0 then 2 else children.Length * 2;
      Doubled(children.Length);
      var more := new TaskTreeNode?[capacity](_ => null);
      forall i | 0 <= i < children.Length { more[i] := children[i]; }
      children := more;
      assert Kids() == before;
    }

    /** The loop of `task_tree_remove_child` on the parent: the child with the id is dropped, the later ones
        move down by one. */
    method RemoveChild(id: nat)
      requires Valid()
      modifies this`childCount, children
      ensures Valid() && Kids() == Without(old(Kids()), id)
    {
      ghost var before := Kids();
      var i := 0;
      while i < childCount && children[i].id != id
        invariant i <= childCount
        invariant forall k :: 0 <= k < i ==> before[k].id != id
      {
        i := i + 1;
      }
      WithoutAt(before, id, i);
      if i == childCount {
        return;
      }
      ShiftDown(i);
      childCount := childCount - 1;
      assert Kids() == before[..i] + before[i + 1..];
    }

    /** The children after position `i` move down by one. */
    method ShiftDown(i: nat)
      requires Valid() && i < childCount
      modifies children
      ensures Valid() && Kids() == old(Kids())[..i] + old(Kids())[i + 1..] + [old(Kids())[childCount - 1]]
    {
      hide Shifted;
      ghost var before, whole := Kids(), children[..];
      ShiftedFirst(whole, i, childCount);
      for j := i to childCount - 1
        invariant children[..] == Shifted(whole, i, j)
      {
        ShiftedNext(whole, i, j);
        children[j] := children[j + 1];
      }
      assert children[..] == Shifted(whole, i, childCount - 1);
      ShiftedAll(whole, i, childCount);
      assert whole[..childCount] == before;
      assert Kids() == children[..childCount];
    }
  }

  /** An array of which the elements after `i` have moved down as far as `j`. */
  function Shifted<T>(s: seq<T>, i: nat, j: nat): seq<T>
    requires i <= j < |s|
  {
    s[..i] + s[i + 1..j + 1] + s[j..]
  }

  lemma ShiftedFirst<T>(s: seq<T>, i: nat, n: nat)
    requires i < n <= |s|
    ensures Shifted(s, i, i) == s
  {
  }

  lemma ShiftedNext<T>(s: seq<T>, i: nat, j: nat)
    requires i <= j < |s| - 1
    ensures |Shifted(s, i, j)| == |s| && Shifted(s, i, j)[j + 1] == s[j + 1]
    ensures Shifted(s, i, j + 1) == Shifted(s, i, j)[j := s[j + 1]]
  {
  }

  lemma ShiftedAll<T>(s: seq<T>, i: nat, n: nat)
    requires i < n <= |s|
    ensures |Shifted(s, i, n - 1)| == |s|
    ensures Shifted(s, i, n - 1)[..n] == s[..i] + s[i + 1..n] + [s[n - 1]]
  {
  }

  /** Nothing, or 2 doubled some number of times. */
  ghost predicate IsCapacity(n: nat) {
    n == 0 || exists k: nat :: n == 2 * Pow2(k)
  }

  lemma Doubled(n: nat)
    requires IsCapacity(n)
    ensures IsCapacity(if n == 0 then 2 else n * 2)
  {
    if n == 0 {
      assert 2 == 2 * Pow2(0);
    } else {
      var k: nat :| n == 2 * Pow2(k);
      assert n * 2 == 2 * Pow2(k + 1);
    }
  }

  /** The nodes without the first one that has the id. */
  function Without(nodes: seq<TaskTreeNode>, id: nat): seq<TaskTreeNode> {
    if nodes == [] then []
    else if nodes[0].id == id then nodes[1..]
    else [nodes[0]] + Without(nodes[1..], id)
  }

  lemma {:induction false} WithoutAt(nodes: seq<TaskTreeNode>, id: nat, i: nat)
    requires i <= |nodes| && forall k :: 0 <= k < i ==> nodes[k].id != id
    requires i < |nodes| ==> nodes[i].id == id
    ensures Without(nodes, id) == nodes[..i] + if i < |nodes| then nodes[i + 1..] else []
    decreases i
  {
    if nodes != [] && i > 0 {
      var rest := nodes[1..];
      WithoutAt(rest, id, i - 1);
      assert [nodes[0]] + rest[..i - 1] == nodes[..i];
      if i < |nodes| { assert rest[i..] == nodes[i + 1..]; }
    }
  }

  /** With distinct ids exactly one node goes, and the others keep their order. */
  lemma {:induction false} WithoutIsExact(nodes: seq<TaskTreeNode>, id: nat, x: TaskTreeNode)
    requires forall i, j :: 0 <= i < j < |nodes| ==> nodes[i].id != nodes[j].id
    ensures x in Without(nodes, id) <==> x in nodes && x.id != id
    ensures |Without(nodes, id)| == |nodes| - if exists n :: n in nodes && n.id == id then 1 else 0
  {
    if nodes != [] {
      WithoutIsExact(nodes[1..], id, x);
      assert nodes == [nodes[0]] + nodes[1..];
      if nodes[0].id == id {
        forall n | n in nodes[1..] ensures n.id != id { }
      }
    }
  }

  function Ids(nodes: seq<TaskTreeNode>): (s: seq<nat>)
    ensures |s| == |nodes|
  {
    seq(|nodes|, i requires 0 <= i < |nodes| => nodes[i].id)
  }

  /** On ids the loop is the removal that the tree lemmas speak about. */
  lemma {:induction false} WithoutIds(nodes: seq<TaskTreeNode>, id: nat)
    ensures Ids(Without(nodes, id)) == Removal.Rest(Ids(nodes), id)
  {
    if nodes != [] {
      var rest := nodes[1..];
      WithoutIds(rest, id);
      assert Ids(nodes) == [nodes[0].id] + Ids(rest);
      assert Ids([nodes[0]] + Without(rest, id)) == [nodes[0].id] + Ids(Without(rest, id));
    }
  }
}
