/** Messages that arrive while handlers run: a drain at any later cycle stacks new handler frames on a handler
    that has not returned, or on the calls it is in. Still every message is handled once. */
module Interrupts {
  import opened Bytes
  import opened ByteStack
  import opened Isa
  import opened Machine
  import opened Frames
  import opened Handlers
  import S = Scheduler

  /** What moves a task: an instruction, or the drain of its inbox at the start of a cycle. */
  datatype Move = Instruct(input: Input) | Take(messages: nat)

  /** Who opened a frame: CALL, the first message of a drain, whose handler interrupts the task, or a further message of
      it, whose handler runs before that. */
  datatype Opener = ByCall | Interrupting | Following

  function Moved(img: Image, th: Thread, h: word, m: Move): Outcome<Thread>
    requires img.Valid()
  {
    if m.Take? then Drained(th, h, m.messages)
    else
      var (t, _) :- Step(img, th, m.input);
      Done(t)
  }

  function MovedAll(img: Image, th: Thread, h: word, moves: seq<Move>): Outcome<Thread>
    requires img.Valid()
    decreases |moves|
  {
    if moves == [] then Done(th)
    else
      var t :- Moved(img, th, h, moves[0]);
      MovedAll(img, t, h, moves[1..])
  }

  function Further(n: nat): (r: seq<Opener>)
    ensures |r| == n && forall k :: 0 <= k < n ==> r[k] == Following
  {
    seq(n, _ => Following)
  }

  function Taken(messages: nat): seq<Opener> {
    if messages == 0 then [] else [Interrupting] + Further(messages - 1)
  }

  /** The open frames after a move. */
  function Openers(os: seq<Opener>, op: Option<Op>, m: Move): seq<Opener>
    requires os != []
  {
    if m.Take? then os + Taken(m.messages)
    else if op == Some(Call) then os + [ByCall]
    else if op == Some(Return) then Init(os)
    else os
  }

  predicate SafeMove(img: Image, th: Thread, h: word, m: Move)
    requires img.Valid()
  {
    if m.Take? then Drained(th, h, m.messages).Done? else SafeStep(img, th, m.input)
  }

  /** The run is safe, and its last move closes the last open frame. */
  predicate Settles(img: Image, th: Thread, h: word, os: seq<Opener>, moves: seq<Move>)
    requires img.Valid()
    decreases |moves|
  {
    if os == [] then moves == []
    else
      && moves != []
      && SafeMove(img, th, h, moves[0])
      && Moved(img, th, h, moves[0]).Done?
      && Settles(img, Moved(img, th, h, moves[0]).value, h, Openers(os, OpOf(Fetched(img, th.ip)), moves[0]), moves[1..])
  }

  /** A handler is due: messages are taken, or a RETURN closes the frame that a further message opened. */
  predicate Due(os: seq<Opener>, op: Option<Op>, m: Move)
    requires os != []
  {
    if m.Take? then m.messages > 0 else op == Some(Return) && Last(os) == Following
  }

  /** How often the task gets to its handler's first instruction when a handler is due. */
  function Entries(img: Image, th: Thread, h: word, os: seq<Opener>, moves: seq<Move>): nat
    requires img.Valid()
    decreases |moves|
  {
    if os == [] || moves == [] || !Moved(img, th, h, moves[0]).Done? then 0
    else
      var t, op := Moved(img, th, h, moves[0]).value, OpOf(Fetched(img, th.ip));
      (if Due(os, op, moves[0]) && t.ip == h then 1 else 0) + Entries(img, t, h, Openers(os, op, moves[0]), moves[1..])
  }

  function Messages(moves: seq<Move>): nat {
    if moves == [] then 0 else (if moves[0].Take? then moves[0].messages else 0) + Messages(moves[1..])
  }

  function Waiting(os: seq<Opener>): nat {
    if os == [] then 0 else Waiting(Init(os)) + if Last(os) == Following then 1 else 0
  }

  lemma {:induction false} WaitingMore(os: seq<Opener>, n: nat)
    ensures Waiting(os + Further(n)) == Waiting(os) + n
    decreases n
  {
    var all := os + Further(n);
    if n == 0 {
      assert all == os;
    } else {
      assert Init(all) == os + Further(n - 1);
      assert Last(all) == Following;
      WaitingMore(os, n - 1);
    }
  }

  lemma WaitingOne(os: seq<Opener>, o: Opener)
    ensures Waiting(os + [o]) == Waiting(os) + if o == Following then 1 else 0
  {
    assert Init(os + [o]) == os;
  }

  // ----- the frames -----

  /** Frames that a further message opened return to the handler. */
  predicate Matches(fs: seq<Frame>, os: seq<Opener>, h: word) {
    |fs| == |os| && forall k :: 0 <= k < |os| && os[k] == Following ==> fs[k].back == h
  }

  /** The frames `fs` are on the task's stack from `base` on, opened by `os`. */
  ghost predicate Open(th: Thread, fs: seq<Frame>, os: seq<Opener>, h: word, base: nat) {
    fs != [] && Matches(fs, os, h) && Framed(th.stk) && Holds(th.stk.data, th.stk.bp, fs, base)
  }

  /** `t` has the bytes of `th` below `base`. */
  predicate SameBelow(th: Thread, t: Thread, base: nat) {
    |t.stk.data| == |th.stk.data| && base <= |th.stk.data| && t.stk.data[..base] == th.stk.data[..base]
  }

  lemma CallOpens(th: Thread, h: word, entry: word, fs: seq<Frame>, os: seq<Opener>, o: Opener, base: nat)
    requires Open(th, fs, os, h, base) && CallAddress(th, entry).Done? && (o == Following ==> th.ip == h)
    ensures var t := CallAddress(th, entry).value;
            Open(t, fs + [Frame(th.ip, th.stk.bp)], os + [o], h, base) && SameBelow(th, t, base)
  {
    hide Holds, PushFrame;
    CallFrames(th, entry, fs, base);
  }

  lemma {:induction false} FurtherOpen(th: Thread, h: word, n: nat, fs: seq<Frame>, os: seq<Opener>, base: nat)
    returns (fs': seq<Frame>)
    requires Open(th, fs, os, h, base) && th.ip == h != 0 && Drained(th, h, n).Done?
    ensures var t := Drained(th, h, n).value;
            && Open(t, fs', os + Further(n), h, base) && fs'[0] == fs[0] && t.ip == h && SameBelow(th, t, base)
    decreases n
  {
    hide Holds, CallAddress;
    if n == 0 {
      assert os + Further(0) == os;
      HoldsIsAbove(th.stk, fs, base);
      fs' := fs;
    } else {
      CallOpens(th, h, h, fs, os, Following, base);
      CalledIp(th, h);
      fs' := FurtherOpen(CallAddress(th, h).value, h, n - 1, fs + [Frame(th.ip, th.stk.bp)], os + [Following], base);
      assert os + [Following] + Further(n - 1) == os + Further(n);
    }
  }

  lemma CalledIp(th: Thread, h: word)
    requires CallAddress(th, h).Done?
    ensures CallAddress(th, h).value.ip == h
  {
    hide PushFrame;
  }

  lemma TakeOpens(th: Thread, h: word, n: nat, fs: seq<Frame>, os: seq<Opener>, base: nat) returns (fs': seq<Frame>)
    requires Open(th, fs, os, h, base) && h != 0 && n > 0 && Drained(th, h, n).Done?
    ensures var t := Drained(th, h, n).value;
            && Open(t, fs', os + Taken(n), h, base) && fs'[0] == fs[0] && t.ip == h && SameBelow(th, t, base)
    ensures Waiting(os + Taken(n)) == Waiting(os) + n - 1
  {
    hide Holds, CallAddress, Waiting;
    CallOpens(th, h, h, fs, os, Interrupting, base);
    CalledIp(th, h);
    fs' := FurtherOpen(CallAddress(th, h).value, h, n - 1, fs + [Frame(th.ip, th.stk.bp)], os + [Interrupting], base);
    assert os + [Interrupting] + Further(n - 1) == os + Taken(n);
    WaitingOne(os, Interrupting);
    WaitingMore(os + [Interrupting], n - 1);
  }

  /** A move of a task with open frames: the frames after it, or the return from the outermost. */
  lemma MoveOpens(img: Image, th: Thread, h: word, m: Move, fs: seq<Frame>, os: seq<Opener>, base: nat)
    returns (fs': seq<Frame>)
    requires img.Valid() && h != 0 && Open(th, fs, os, h, base) && SafeMove(img, th, h, m)
    ensures Moved(img, th, h, m).Done?
    ensures var t, op := Moved(img, th, h, m).value, OpOf(Fetched(img, th.ip));
            var os' := Openers(os, op, m);
            && SameBelow(th, t, base)
            && (os' != [] ==> Open(t, fs', os', h, base) && fs'[0] == fs[0])
            && (os' == [] ==> t.ip == fs[0].back && t.stk.bp == fs[0].bp && t.stk.sp == base)
            && (Due(os, op, m) ==> t.ip == h)
            && Waiting(os') + (if Due(os, op, m) then 1 else 0) == Waiting(os) + if m.Take? then m.messages else 0
  {
    hide Step, Holds, Safe, Fetched, Waiting;
    if m.Take? {
      if m.messages > 0 {
        fs' := TakeOpens(th, h, m.messages, fs, os, base);
      } else {
        assert os + Taken(0) == os;
        HoldsIsAbove(th.stk, fs, base);
        fs' := fs;
      }
    } else {
      StepFrames(img, th, fs, base, m.input);
      fs' := Frames.Frames(Fetched(img, th.ip), th.ip, th.stk.bp, fs);
      WaitingOne(os, ByCall);
      WaitingOne(Init(os), Last(os));
      assert Init(os) + [Last(os)] == os;
      ReturnsWhere(img, th, h, m.input, fs, base);
    }
  }

  lemma ReturnsWhere(img: Image, th: Thread, h: word, input: Input, fs: seq<Frame>, base: nat)
    requires img.Valid() && SafeStep(img, th, input)
    requires fs != [] && Framed(th.stk) && Holds(th.stk.data, th.stk.bp, fs, base)
    ensures OpOf(Fetched(img, th.ip)) == Some(Return) ==> Step(img, th, input).value.0.ip == Last(fs).back
  {
    hide DataOp, Holds, PopFrame, Decode;
    if OpOf(Fetched(img, th.ip)) == Some(Return) {
      PopFrameHolds(th.stk, fs, base);
      var next := th.(ip := th.ip + Size(Return));
      assert Step(img, th, input) == Execute(img.Context(), Fetched(img, th.ip).value, next, input);
    }
  }

  /** The run goes back to where the outermost frame says, and for each message, waiting or taken meanwhile, it gets
      to the handler once. */
  lemma {:induction false} SettlesFrom(img: Image, th: Thread, h: word, fs: seq<Frame>, os: seq<Opener>, base: nat, moves: seq<Move>)
    requires img.Valid() && h != 0 && Open(th, fs, os, h, base) && Settles(img, th, h, os, moves)
    ensures var r := MovedAll(img, th, h, moves);
            && r.Done? && r.value.ip == fs[0].back && r.value.stk.bp == fs[0].bp && r.value.stk.sp == base
            && SameBelow(th, r.value, base)
    ensures Entries(img, th, h, os, moves) == Waiting(os) + Messages(moves)
    decreases |moves|
  {
    hide Moved, Waiting, Due, Openers, Framed, Holds, SafeMove, Fetched;
    var fs' := MoveOpens(img, th, h, moves[0], fs, os, base);
    var t := Moved(img, th, h, moves[0]).value;
    var os' := Openers(os, OpOf(Fetched(img, th.ip)), moves[0]);
    if os' != [] {
      SettlesFrom(img, t, h, fs', os', base, moves[1..]);
    } else {
      NoneWaiting();
    }
  }

  lemma NoneWaiting()
    ensures Waiting([]) == 0
  {
  }

  /** Every message is handled exactly once, also if messages interrupt handlers: from a drain of `messages` messages
      on, through any safe run with any later drains up to the RETURN of the first interrupting handler, the handler is
      entered once for each message taken, and then the interrupted code goes on with its `ip`, `bp`, `sp` and live bytes. */
  lemma HandledOnceInterrupted(img: Image, th: Thread, h: word, messages: nat, moves: seq<Move>)
    requires img.Valid() && h != 0 && messages > 0
    requires Framed(th.stk) && th.stk.sp <= |th.stk.data| && Drained(th, h, messages).Done?
    requires Settles(img, Drained(th, h, messages).value, h, Taken(messages), moves)
    ensures var start := Drained(th, h, messages).value;
            && start.ip == h
            && 1 + Entries(img, start, h, Taken(messages), moves) == messages + Messages(moves)
            && MovedAll(img, start, h, moves).Done? && SameUpTo(MovedAll(img, start, h, moves).value, th)
  {
    hide Settles, Entries, MovedAll, Waiting, Holds, PushFrame;
    var frame := Frame(th.ip, th.stk.bp);
    var first := CallAddress(th, h).value;
    PushFrameShape(th.stk, th.ip);
    PushFrameHolds(th.stk, th.ip, [], th.stk.sp);
    assert [] + [frame] == [frame];
    var start := Drained(th, h, messages).value;
    var fs := FurtherOpen(first, h, messages - 1, [frame], [Interrupting], th.stk.sp);
    assert [Interrupting] + Further(messages - 1) == Taken(messages);
    SettlesFrom(img, start, h, fs, Taken(messages), th.stk.sp, moves);
    NoneWaiting();
    WaitingOne([], Interrupting);
    assert [] + [Interrupting] == [Interrupting];
    WaitingMore([Interrupting], messages - 1);
  }

  // ----- cycles -----

  function Instructs(ins: seq<Input>): seq<Move> {
    if ins == [] then [] else [Instruct(ins[0])] + Instructs(ins[1..])
  }

  /** The moves of a task in its cycles. */
  function Moves(inputs: seq<S.SoloInput>): seq<Move> {
    if inputs == [] then []
    else [Take(inputs[0].messages)] + Instructs(inputs[0].ins) + Moves(inputs[1..])
  }

  lemma {:induction false} MovedAppend(img: Image, th: Thread, h: word, a: seq<Move>, b: seq<Move>)
    requires img.Valid() && MovedAll(img, th, h, a).Done?
    ensures MovedAll(img, th, h, a + b) == MovedAll(img, MovedAll(img, th, h, a).value, h, b)
    decreases |a|
  {
    hide Moved;
    if a == [] {
      assert a + b == b;
    } else {
      assert (a + b)[0] == a[0] && (a + b)[1..] == a[1..] + b;
      MovedAppend(img, Moved(img, th, h, a[0]).value, h, a[1..], b);
    }
  }

  lemma {:induction false} InstructsAreRun(img: Image, th: Thread, h: word, ins: seq<Input>)
    requires img.Valid() && S.SoloRun(img, th, ins).Done?
    ensures MovedAll(img, th, h, Instructs(ins)) == Done(S.SoloRun(img, th, ins).value.0)
    decreases |ins|
  {
    hide Step;
    if ins != [] {
      var moves := Instructs(ins);
      assert moves[0] == Instruct(ins[0]) && moves[1..] == Instructs(ins[1..]);
      InstructsAreRun(img, Step(img, th, ins[0]).value.0, h, ins[1..]);
    }
  }

  /** The cycles of a task, as it sees them in any schedule, are those moves. */
  lemma {:induction false} CyclesAreMoves(img: Image, th: Thread, h: word, inputs: seq<S.SoloInput>)
    requires img.Valid() && S.SoloCycles(img, th, h, inputs).Done?
    ensures MovedAll(img, th, h, Moves(inputs)) == Done(S.SoloCycles(img, th, h, inputs).value.0)
    decreases |inputs|
  {
    hide Step, Drained, S.SoloRun, Instructs;
    if inputs != [] {
      var input := inputs[0];
      var t := Drained(th, h, input.messages).value;
      var u := S.SoloRun(img, t, input.ins).value.0;
      InstructsAreRun(img, t, h, input.ins);
      var take := [Take(input.messages)];
      assert take[1..] == [];
      assert MovedAll(img, th, h, take) == Done(t);
      MovedAppend(img, th, h, take, Instructs(input.ins));
      MovedAppend(img, th, h, take + Instructs(input.ins), Moves(inputs[1..]));
      CyclesAreMoves(img, u, h, inputs[1..]);
    }
  }
}
