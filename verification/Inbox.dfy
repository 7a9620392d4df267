/** Inboxes: a linked list of bounded linked queues (src/messaging.c, src/cpu.c). */
module Inbox {
  import opened Bytes
  import opened Wire

  /** `TASK_MESSAGE_QUEUE_SIZE`. */
  const QUEUE_SIZE: nat := 4

  class Message {
    const msg: Msg
    var next: Message?

    /** `message_create` leaves `next` unset; a fresh message is taken to have none. */
    constructor (msg: Msg)
      ensures this.msg == msg && next == null
    {
      this.msg := msg;
      next := null;
    }
  }

  function Messages(chain: seq<Message>): (s: seq<Msg>)
    ensures |s| == |chain| && forall i :: 0 <= i < |s| ==> s[i] == chain[i].msg
  {
    seq(|chain|, i requires 0 <= i < |chain| => chain[i].msg)
  }

  ghost function LastOf(chain: seq<Message>): set<Message> {
    if chain == [] then {} else {chain[|chain| - 1]}
  }

  /** Message `i` of the chain links to the next one, the last to none. */
  ghost predicate LinkedAt(chain: seq<Message>, i: nat)
    requires i < |chain|
    reads chain[i]
  {
    chain[i].next == if i + 1 < |chain| then chain[i + 1] else null
  }

  /** The messages linked from `head`, all different. */
  ghost predicate ChainFrom(head: Message?, chain: seq<Message>)
    reads chain
  {
    && (head == if chain == [] then null else chain[0])
    && (forall i, j :: 0 <= i < j < |chain| ==> chain[i] != chain[j])
    && (forall i :: 0 <= i < |chain| ==> LinkedAt(chain, i))
  }

  lemma ChainRest(head: Message, chain: seq<Message>)
    requires chain != [] && ChainFrom(head, chain)
    ensures ChainFrom(head.next, chain[1..])
  {
    var rest := chain[1..];
    assert LinkedAt(chain, 0);
    forall i | 0 <= i < |rest| ensures LinkedAt(rest, i) { assert LinkedAt(chain, i + 1); }
  }

  class MessageQueue {
    const taskId: word
    var next: MessageQueue?
    var head: Message?
    var tail: Message?
    var count: word

    /** The pending messages, oldest first, and everything ever accepted and drained. */
    ghost var chain: seq<Message>
    ghost var accepted: seq<Msg>
    ghost var drained: seq<Msg>

    ghost predicate Valid()
      reads this, chain
    {
      && |chain| == count <= QUEUE_SIZE
      && ChainFrom(head, chain)
      && (count > 0 ==> tail == chain[count - 1])
      && accepted == drained + Messages(chain)
    }

    constructor (taskId: word)
      ensures Valid() && this.taskId == taskId && next == null && chain == [] && accepted == []
    {
      this.taskId := taskId;
      next, head, tail, count := null, null, null, 0;
      chain, accepted, drained := [], [], [];
    }

    /** The linking part of `deliver_local`. */
    method Append(message: Message)
      requires Valid() && count < QUEUE_SIZE && message !in chain && message.next == null
      modifies this`head, this`tail, this`count, this`chain, this`accepted, LastOf(chain)
      ensures Valid() && chain == old(chain) + [message]
      ensures accepted == old(accepted) + [message.msg]
      ensures message.next == null
    {
      ghost var n := |chain|;
      if head == null {
        head := message;
        tail := message;
      } else {
        tail.next := message;
        tail := message;
      }
      count, chain, accepted := count + 1, chain + [message], accepted + [message.msg];
      forall i | 0 <= i < |chain| ensures LinkedAt(chain, i)
      {
        if i < n { assert old(LinkedAt(chain, i)); }
      }
      assert Messages(chain) == Messages(old(chain)) + [message.msg];
    }

    /** One turn of the loop of `cpu_process_context_inbox`, after the call of the handler. */
    method TakeHead() returns (message: Message)
      requires Valid() && count > 0
      modifies this`head, this`count, this`chain, this`drained
      ensures Valid() && [message] + chain == old(chain) && count == old(count) - 1
      ensures drained == old(drained) + [message.msg]
    {
      message := head;
      ChainRest(message, chain);
      HistoryRest(accepted, drained, chain);
      head, count, drained, chain := message.next, count - 1, drained + [message.msg], chain[1..];
    }
  }

  lemma HistoryRest(accepted: seq<Msg>, drained: seq<Msg>, chain: seq<Message>)
    requires chain != [] && accepted == drained + Messages(chain)
    ensures accepted == drained + [chain[0].msg] + Messages(chain[1..])
    ensures [chain[0]] + chain[1..] == chain
  {
    assert Messages(chain) == [chain[0].msg] + Messages(chain[1..]);
  }

  lemma MessagesRest(message: Message, chain: seq<Message>)
    ensures Messages([message] + chain) == [message.msg] + Messages(chain)
    ensures Messages([message] + chain)[1..] == Messages(chain)
    ensures Messages(chain + [message]) == Messages(chain) + [message.msg]
  {
  }

  // ----- the list of queues -----

  datatype Delivery = Queued | Full | NotFound

  /** The queues `reg` are linked in order from `first`; their messages are among `all`, none in two queues. */
  ghost predicate Registry(reg: seq<MessageQueue>, first: MessageQueue?, all: set<Message>)
    reads reg, all
  {
    && (first == if reg == [] then null else reg[0])
    && QueuesLinked(reg)
    && (forall i, j :: 0 <= i < j < |reg| ==> reg[i] != reg[j])
    && (forall i :: 0 <= i < |reg| ==> Owned(reg[i], all))
    && (forall i, j :: 0 <= i < j < |reg| ==> Apart(reg[i], reg[j]))
  }

  ghost predicate QueuesLinked(reg: seq<MessageQueue>)
    reads reg
  {
    forall i :: 0 <= i < |reg| ==> QueueLinkedAt(reg, i)
  }

  ghost predicate QueueLinkedAt(reg: seq<MessageQueue>, i: nat)
    requires i < |reg|
    reads reg[i]
  {
    reg[i].next == if i + 1 < |reg| then reg[i + 1] else null
  }

  /** A valid queue whose messages are among `all`. */
  ghost predicate Owned(q: MessageQueue, all: set<Message>)
    reads q, all
  {
    (forall i :: 0 <= i < |q.chain| ==> q.chain[i] in all) && q.Valid()
  }

  ghost predicate Apart(p: MessageQueue, q: MessageQueue)
    reads p, q
  {
    forall i, j :: 0 <= i < |p.chain| && 0 <= j < |q.chain| ==> p.chain[i] != q.chain[j]
  }

  /** `deliver_local`: the message goes to the end of the first queue of its task, unless that is full.
      `at` is the position of the queue, or the number of queues. */
  method DeliverLocal(queues: MessageQueue?, message: Message, ghost reg: seq<MessageQueue>, ghost all: set<Message>)
    returns (r: Delivery, ghost at: nat)
    requires Registry(reg, queues, all) && message !in all && message.next == null
    modifies reg, all
    ensures Registry(reg, queues, all + {message})
    ensures at <= |reg| && forall i :: 0 <= i < at ==> reg[i].taskId != message.msg.taskDst
    ensures at < |reg| ==> reg[at].taskId == message.msg.taskDst
    ensures r == (if at == |reg| then NotFound else if |old(reg[at].chain)| >= QUEUE_SIZE then Full else Queued)
    ensures forall i :: 0 <= i < |reg| && i != at ==> Same(reg[i])
    ensures at < |reg| && !r.Queued? ==> Same(reg[at])
    ensures at < |reg| && r.Queued? ==>
              && reg[at].chain == old(reg[at].chain) + [message]
              && reg[at].accepted == old(reg[at].accepted) + [message.msg]
              && reg[at].drained == old(reg[at].drained)
  {
    var queue := queues;
    at := 0;
    while queue != null
      invariant at <= |reg| && (queue == if at < |reg| then reg[at] else null)
      invariant forall i :: 0 <= i < at ==> reg[i].taskId != message.msg.taskDst
      decreases |reg| - at
    {
      if queue.taskId == message.msg.taskDst {
        if queue.count >= QUEUE_SIZE {
          OwnedByMore(reg, queues, all, message);
          return Full, at;
        }
        QueueAppend(queue, message, reg, queues, at, all);
        return Queued, at;
      }
      assert QueueLinkedAt(reg, at);
      queue := queue.next;
      at := at + 1;
    }
    OwnedByMore(reg, queues, all, message);
    return NotFound, at;
  }

  /** The queue is what it was. */
  twostate predicate Same(q: MessageQueue)
    reads q
  {
    q.chain == old(q.chain) && q.accepted == old(q.accepted) && q.drained == old(q.drained)
  }

  lemma OneQueue(q: MessageQueue)
    requires q.Valid() && q.next == null && q.chain == []
    ensures Registry([q], q, {})
  {
  }

  lemma OwnedByMore(reg: seq<MessageQueue>, first: MessageQueue?, all: set<Message>, message: Message)
    requires Registry(reg, first, all)
    ensures Registry(reg, first, all + {message})
  {
  }

  /** Appending to one queue keeps the registry. */
  method QueueAppend(queue: MessageQueue, message: Message, ghost reg: seq<MessageQueue>, ghost first: MessageQueue?,
                     ghost at: nat, ghost all: set<Message>)
    requires Registry(reg, first, all) && at < |reg| && queue == reg[at]
    requires queue.count < QUEUE_SIZE && message !in all && message.next == null
    modifies queue`head, queue`tail, queue`count, queue`chain, queue`accepted, LastOf(queue.chain)
    ensures Registry(reg, first, all + {message})
    ensures queue.chain == old(queue.chain) + [message] && queue.accepted == old(queue.accepted) + [message.msg]
  {
    assert message !in queue.chain;
    queue.Append(message);
    forall i | 0 <= i < |reg| && i != at
      ensures Owned(reg[i], all) && Apart(reg[i], queue) && Apart(queue, reg[i])
    {
      assert old(Owned(reg[i], all));
      assert old(if i < at then Apart(reg[i], reg[at]) else Apart(reg[at], reg[i]));
    }
    forall i | 0 <= i < |reg| ensures QueueLinkedAt(reg, i) { assert old(QueueLinkedAt(reg, i)); }
    LinksSame(reg, first, at, all, message);
  }

  /** Taking the oldest message of one queue keeps the registry. */
  method QueueTake(queue: MessageQueue, ghost reg: seq<MessageQueue>, ghost first: MessageQueue?, ghost at: nat,
                   ghost all: set<Message>)
    returns (message: Message)
    requires Registry(reg, first, all) && at < |reg| && queue == reg[at] && queue.count > 0
    modifies queue`head, queue`count, queue`chain, queue`drained
    ensures Registry(reg, first, all)
    ensures [message] + queue.chain == old(queue.chain) && queue.count == old(queue.count) - 1
    ensures queue.drained == old(queue.drained) + [message.msg] && queue.accepted == old(queue.accepted)
  {
    message := queue.TakeHead();
    ghost var before := old(queue.chain);
    assert forall i :: 0 <= i < |queue.chain| ==> queue.chain[i] == before[i + 1];
    forall i | 0 <= i < |reg| && i != at
      ensures Owned(reg[i], all) && Apart(reg[i], queue) && Apart(queue, reg[i])
    {
      assert old(Owned(reg[i], all));
      assert old(if i < at then Apart(reg[i], reg[at]) else Apart(reg[at], reg[i]));
    }
    forall i | 0 <= i < |reg| ensures QueueLinkedAt(reg, i) { assert old(QueueLinkedAt(reg, i)); }
    LinksSame(reg, first, at, all, message);
    assert all + {message} == all;
  }

  lemma LinksSame(reg: seq<MessageQueue>, first: MessageQueue?, at: nat, all: set<Message>, message: Message)
    requires at < |reg| && Owned(reg[at], all + {message})
    requires first == if reg == [] then null else reg[0]
    requires QueuesLinked(reg)
    requires forall i, j :: 0 <= i < j < |reg| ==> reg[i] != reg[j]
    requires forall i :: 0 <= i < |reg| && i != at ==> Owned(reg[i], all)
    requires forall i, j :: 0 <= i < j < |reg| ==> Apart(reg[i], reg[j])
    ensures Registry(reg, first, all + {message})
  {
    forall i | 0 <= i < |reg| ensures Owned(reg[i], all + {message})
    {
      if i != at { assert Owned(reg[i], all); }
    }
  }

  method LastQueue(queues: MessageQueue, ghost reg: seq<MessageQueue>, ghost all: set<Message>) returns (last: MessageQueue)
    requires Registry(reg, queues, all)
    ensures reg != [] && last == reg[|reg| - 1]
  {
    last := queues;
    ghost var k := 0;
    while last.next != null
      invariant k < |reg| && last == reg[k]
      decreases |reg| - k
    {
      assert QueueLinkedAt(reg, k);
      last := last.next;
      k := k + 1;
    }
    assert QueueLinkedAt(reg, k);
  }

  /** `cpu_create_task_inbox`: the new queue becomes the last of the list. */
  method AddQueue(queues: MessageQueue, queue: MessageQueue, ghost reg: seq<MessageQueue>, ghost end: MessageQueue,
                  ghost all: set<Message>)
    requires Registry(reg, queues, all) && queue !in reg && reg != [] && end == reg[|reg| - 1]
    requires queue.Valid() && queue.next == null && queue.chain == []
    modifies end`next
    ensures Registry(reg + [queue], queues, all)
  {
    var last := LastQueue(queues, reg, all);
    LinkLast(last, queue, reg, all);
    Extended(reg, queues, queue, all);
  }

  /** The new link changes no queue's contents. */
  method LinkLast(last: MessageQueue, queue: MessageQueue, ghost reg: seq<MessageQueue>, ghost all: set<Message>)
    requires reg != [] && last == reg[|reg| - 1] && queue !in reg && queue.next == null
    requires (forall i, j :: 0 <= i < j < |reg| ==> reg[i] != reg[j]) && QueuesLinked(reg)
    requires forall i :: 0 <= i < |reg| ==> Owned(reg[i], all)
    modifies last`next
    ensures QueuesLinked(reg + [queue])
    ensures forall i :: 0 <= i < |reg| ==> Owned(reg[i], all) && reg[i].chain == old(reg[i].chain)
    ensures queue.chain == old(queue.chain) && (old(queue.Valid()) ==> queue.Valid())
  {
    assert old(Owned(last, all));
    last.next := queue;
    ghost var more := reg + [queue];
    forall i | 0 <= i < |more| ensures QueueLinkedAt(more, i)
    {
      if i < |reg| - 1 { assert old(QueueLinkedAt(reg, i)); }
    }
    assert Owned(last, all);
    forall i | 0 <= i < |reg| - 1 ensures Owned(reg[i], all)
    {
      assert old(Owned(reg[i], all));
    }
  }

  lemma Extended(reg: seq<MessageQueue>, first: MessageQueue, queue: MessageQueue, all: set<Message>)
    requires reg != [] && first == reg[0] && queue !in reg && queue.Valid() && queue.chain == []
    requires forall i, j :: 0 <= i < j < |reg| ==> reg[i] != reg[j]
    requires QueuesLinked(reg + [queue])
    requires forall i :: 0 <= i < |reg| ==> Owned(reg[i], all)
    requires forall i, j :: 0 <= i < j < |reg| ==> Apart(reg[i], reg[j])
    ensures Registry(reg + [queue], first, all)
  {
    ghost var more := reg + [queue];
    forall i | 0 <= i < |more| ensures Owned(more[i], all)
    {
      if i < |reg| { assert Owned(reg[i], all); }
    }
    forall i, j | 0 <= i < j < |more| ensures Apart(more[i], more[j])
    {
      if j < |reg| { assert Apart(reg[i], reg[j]); }
    }
  }
}
