/** Draining an inbox stacks one handler frame per message; the frames unwind into exactly as
    many handler runs and then resume the interrupted code (cpu_process_context_inbox). */
module Handlers {
  import opened Bytes
  import opened ByteStack
  import opened Isa
  import opened Machine
  import opened Frames

  /** `count` messages with handler `h`: no call is made for `h == 0`. */
  function Drained(th: Thread, h: word, count: nat): Outcome<Thread>
    decreases count
  {
    if count == 0 then Done(th)
    else if h == 0 then Drained(th, h, count - 1)
    else
      var t :- CallAddress(th, h);
      Drained(t, h, count - 1)
  }

  /** `count` handler activations one after the other: each starts at `h`, is safe and returns. */
  predicate HandlersRun(img: Image, th: Thread, h: word, runs: seq<seq<Input>>)
    requires img.Valid()
    decreases |runs|
  {
    runs == [] ||
    (&& th.ip == h
     && Returns(img, th, 1, runs[0])
     && Run(img, th, runs[0]).end.Done?
     && HandlersRun(img, Run(img, th, runs[0]).end.value, h, runs[1..]))
  }

  /** Each handler activation reaches its RETURN, wherever the previous one left the task. */
  predicate AllReturn(img: Image, th: Thread, runs: seq<seq<Input>>)
    requires img.Valid()
    decreases |runs|
  {
    runs == [] ||
    (Returns(img, th, 1, runs[0])
     && (Run(img, th, runs[0]).end.Done? ==> AllReturn(img, Run(img, th, runs[0]).end.value, runs[1..])))
  }

  function Concat(runs: seq<seq<Input>>): seq<Input> {
    if runs == [] then [] else runs[0] + Concat(runs[1..])
  }

  lemma {:induction false} RunAppend(img: Image, th: Thread, a: seq<Input>, b: seq<Input>)
    requires img.Valid()
    ensures var r := Run(img, th, a);
            Run(img, th, a + b)
            == if r.end.Done? then Trace(r.events + Run(img, r.end.value, b).events, Run(img, r.end.value, b).end)
               else r
    decreases |a|
  {
    hide Step;
    if a == [] {
      assert a + b == b;
    } else {
      assert (a + b)[0] == a[0] && (a + b)[1..] == a[1..] + b;
      var s := Step(img, th, a[0]);
      if s.Done? {
        RunAppend(img, s.value.0, a[1..], b);
        var rest := Run(img, s.value.0, a[1..]);
        if rest.end.Done? {
          assert [s.value.1] + (rest.events + Run(img, rest.end.value, b).events)
              == ([s.value.1] + rest.events) + Run(img, rest.end.value, b).events;
        }
      }
    }
  }

  /** The frames fit exactly when there are four bytes for each; otherwise the VM exits. */
  lemma {:induction false} DrainFits(th: Thread, h: word, count: nat)
    requires h != 0 && Framed(th.stk) && th.stk.sp <= |th.stk.data| < 65534
    ensures Drained(th, h, count).Done? <==> th.stk.sp + 4 * count <= |th.stk.data|
    ensures !Drained(th, h, count).Done? ==> Drained(th, h, count) == Exited(FAILURE)
    decreases count
  {
    hide PushFrame;
    if count > 0 {
      CallFits(th, h);
      if CallAddress(th, h).Done? {
        PushFrameShape(th.stk, th.ip);
        DrainFits(CallAddress(th, h).value, h, count - 1);
      }
    }
  }

  /** After the drain the task is at the handler, `count` frames up, its live bytes unchanged. */
  lemma {:induction false} DrainShape(th: Thread, h: word, count: nat)
    requires Framed(th.stk) && th.stk.sp <= |th.stk.data| && Drained(th, h, count).Done?
    ensures var t := Drained(th, h, count).value;
            && (h == 0 || count == 0 ==> t == th)
            && (h != 0 && count > 0 ==>
                  && t.ip == h && t.ops == th.ops && t.stk.sp == t.stk.bp == th.stk.sp + 4 * count
                  && t.stk.sp <= |t.stk.data|)
            && |t.stk.data| == |th.stk.data|
            && AgreeBelow(t.stk.data, th.stk.data, th.stk.sp)
    decreases count
  {
    hide PushFrame;
    if count > 0 && h == 0 {
      DrainShape(th, h, count - 1);
    } else if count > 0 {
      PushFrameShape(th.stk, th.ip);
      var t := CallAddress(th, h).value;
      DrainShape(t, h, count - 1);
      AgreeShorter(Drained(t, h, count - 1).value.stk.data, t.stk.data, t.stk.sp, th.stk.sp);
    }
  }

  lemma CallFits(th: Thread, h: word)
    requires th.stk.sp <= |th.stk.data| < 65534
    ensures CallAddress(th, h).Done? <==> th.stk.sp + 4 <= |th.stk.data|
    ensures !CallAddress(th, h).Done? ==> CallAddress(th, h) == Exited(FAILURE)
  {
    PushWordLive(th.stk, th.ip);
    if PushWord(th.stk, th.ip).Done? {
      PushWordLive(PushWord(th.stk, th.ip).value, th.stk.bp);
    }
  }

  /** One message more is one call made from the state reached so far. */
  lemma {:induction false} DrainLast(th: Thread, h: word, count: nat)
    requires h != 0 && Drained(th, h, count + 1).Done?
    ensures Drained(th, h, count).Done?
    ensures CallAddress(Drained(th, h, count).value, h) == Drained(th, h, count + 1)
    decreases count
  {
    if count > 0 {
      DrainLast(CallAddress(th, h).value, h, count - 1);
    } else {
      assert Drained(CallAddress(th, h).value, h, 0) == CallAddress(th, h);
    }
  }

  lemma {:induction false} DrainFramed(th: Thread, h: word, count: nat)
    requires Framed(th.stk) && Drained(th, h, count).Done?
    ensures Framed(Drained(th, h, count).value.stk)
    decreases count
  {
    if count > 0 {
      if h == 0 {
        DrainFramed(th, h, count - 1);
      } else {
        PushFrameShape(th.stk, th.ip);
        DrainFramed(CallAddress(th, h).value, h, count - 1);
      }
    }
  }

  /** Two threads that agree on everything but the operand stack and the dead bytes above `sp`. */
  predicate SameUpTo(t: Thread, th: Thread) {
    && t.ip == th.ip && t.stk.bp == th.stk.bp && t.stk.sp == th.stk.sp
    && |t.stk.data| == |th.stk.data| && AgreeBelow(t.stk.data, th.stk.data, th.stk.sp)
  }

  /** Every message is handled exactly once: after a drain of `|runs|` messages the handler is entered
      exactly `|runs|` times if each activation returns, and then the interrupted code goes on with its
      `ip`, `bp`, `sp` and all live bytes of its call stack. */
  lemma {:induction false} HandledOnce(img: Image, th: Thread, h: word, runs: seq<seq<Input>>)
    requires img.Valid() && h != 0
    requires Framed(th.stk) && th.stk.sp <= |th.stk.data| && Drained(th, h, |runs|).Done?
    requires AllReturn(img, Drained(th, h, |runs|).value, runs)
    ensures HandlersRun(img, Drained(th, h, |runs|).value, h, runs)
    ensures var r := Run(img, Drained(th, h, |runs|).value, Concat(runs));
            r.end.Done? && SameUpTo(r.end.value, th)
    decreases |runs|
  {
    hide Step, Returns, HandlersRun, AllReturn, CallAddress;
    DrainShape(th, h, |runs|);
    HandledFrom(img, th, Drained(th, h, |runs|).value, h, runs);
  }

  lemma {:induction false} HandledFrom(img: Image, th: Thread, now: Thread, h: word, runs: seq<seq<Input>>)
    requires img.Valid() && h != 0
    requires Framed(th.stk) && th.stk.sp <= |th.stk.data| && Drained(th, h, |runs|).Done?
    requires SameUpTo(now, Drained(th, h, |runs|).value)
    requires AllReturn(img, now, runs)
    ensures HandlersRun(img, now, h, runs)
    ensures var r := Run(img, now, Concat(runs)); r.end.Done? && SameUpTo(r.end.value, th)
    decreases |runs|
  {
    hide Step, Returns, CallAddress, Framed;
    if runs == [] {
      assert Concat(runs) == [];
    } else {
      DrainLast(th, h, |runs| - 1);
      DrainFramed(th, h, |runs| - 1);
      var below := Drained(th, h, |runs| - 1).value;
      ActivationEnds(img, below, now, h, runs[0]);
      var next := Run(img, now, runs[0]).end.value;
      HandledFrom(img, th, next, h, runs[1..]);
      RunAppend(img, now, runs[0], Concat(runs[1..]));
    }
  }

  lemma ActivationEnds(img: Image, below: Thread, now: Thread, h: word, run: seq<Input>)
    requires img.Valid() && Framed(below.stk) && CallAddress(below, h).Done?
    requires SameUpTo(now, CallAddress(below, h).value)
    requires Returns(img, now, 1, run)
    ensures now.ip == h
    ensures Run(img, now, run).end.Done? && SameUpTo(Run(img, now, run).end.value, below)
  {
    var called := CallAddress(below, h).value;
    var fs := [Frame(below.ip, below.stk.bp)];
    var sp := below.stk.sp;
    PushFrameHolds(below.stk, below.ip, [], sp);
    PushFrameShape(below.stk, below.ip);
    assert [] + fs == fs;
    HoldsBelow(called.stk.data, now.stk.data, called.stk.bp, fs, sp);
    ReturnsToFrame(img, now, fs, sp, run);
    AgreeShorter(now.stk.data, called.stk.data, called.stk.sp, sp);
  }
}
