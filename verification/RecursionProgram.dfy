/** programs/recursion.rfl as a whole: compiled by the compiler, run by the byte machine. */
module RecursionProgram {
  import opened Bytes
  import opened ByteStack
  import opened Isa
  import opened Machine
  import opened Assembler
  import opened Labelled
  import opened Recursion
  import Constants
  import Locals
  import Includes
  import Compiler

  /** "result: %u\n" */
  const TEXT: seq<byte> := [114, 101, 115, 117, 108, 116, 58, 32, 37, 117, 10]

  /** The lines of the program without its constant, the call of `.main` in front; `n` is the number
      in the first line of `.main`, the other operands are those that the layout passes replace. */
  function ProgramLine(k: nat, n: word, ret: Arg, i: Arg, last: Arg): Line
    requires k < 43
  {
    if k < 10 then MainLine(k, n, ret)
    else if k < 32 then IncrWith(k - 10, i, last)
    else if k == 32 then Label("call_incr")
    else IncrWith(k - 11, i, last)
  }

  function MainLine(k: nat, n: word, ret: Arg): Line
    requires k < 10
  {
    if k == 0 then Ins(Call, LabelRef("main"))
    else if k == 1 then Ins(Halt, NoArg)
    else if k == 2 then Fn("main")
    else if k == 3 then Ins(PushLU16, Num(n))
    else if k == 4 then Ins(PushLU16, Num(1))
    else if k == 5 then Ins(Call, LabelRef("incr"))
    else if k == 6 then Ins(PushLU16, ret)
    else if k == 7 then Ins(SysCall, Num(0))
    else if k == 8 then Ins(Return, NoArg)
    else Fn("incr")
  }

  function ProgramLines(n: word, ret: Arg, i: Arg, last: Arg): (lines: seq<Line>)
    ensures |lines| == 43 && forall k :: 0 <= k < 43 ==> lines[k] == ProgramLine(k, n, ret, i, last)
  {
    seq(43, k requires 0 <= k < 43 => ProgramLine(k, n, ret, i, last))
  }

  /** The source file. */
  function Source(n: word): seq<Line> {
    [Const("ret", StringConst(TEXT))]
    + ProgramLines(n, VarRef("ret"), VarRef("i"), VarRef("n"))[2..]
  }

  /** The program after the layout passes. */
  function Final(n: word): seq<Line> { ProgramLines(n, Num(3), Num(0), Num(2)) }

  // ----- layout -----

  lemma {:induction false} ConstsOnlyInFront(front: seq<Line>, rest: seq<Line>)
    requires forall k :: 0 <= k < |rest| ==> !rest[k].Const?
    ensures Constants.WithoutConsts(front + rest) == Constants.WithoutConsts(front) + rest
    ensures Constants.Table(front + rest) == Constants.Table(front)
    ensures Constants.Data(front + rest) == Constants.Data(front)
    decreases |rest|
  {
    hide Constants.WithoutConsts, Constants.Table, Constants.Data;
    if rest == [] {
      assert front + rest == front;
    } else {
      var most, last := Init(rest), Last(rest);
      ConstsOnlyInFront(front, most);
      assert front + rest == (front + most) + [last];
      OneMoreLine(front + most, last);
    }
  }

  lemma OneMoreLine(lines: seq<Line>, line: Line)
    requires !line.Const?
    ensures Constants.WithoutConsts(lines + [line]) == Constants.WithoutConsts(lines) + [line]
    ensures Constants.Table(lines + [line]) == Constants.Table(lines)
    ensures Constants.Data(lines + [line]) == Constants.Data(lines)
  {
    assert Init(lines + [line]) == lines;
  }

  lemma ConstPass(n: word)
    ensures Constants.ConstsBuilt(Compiler.MAIN_CALL + Source(n))
            == (ProgramLines(n, Num(3), VarRef("i"), VarRef("n")), TEXT + [0])
  {
    hide IncrWith, ProgramLine, Constants.Substitute, Constants.WithoutConsts, Constants.Table, Constants.Data;
    var lines := ProgramLines(n, VarRef("ret"), VarRef("i"), VarRef("n"));
    var front := Compiler.MAIN_CALL + [Const("ret", StringConst(TEXT))];
    assert Compiler.MAIN_CALL + Source(n) == front + lines[2..];
    forall k | 0 <= k < 43 ensures !lines[k].Const? { LineIsCode(k, n, VarRef("ret"), VarRef("i"), VarRef("n")); }
    ConstsOnlyInFront(front, lines[2..]);
    ConstsFront();
    FirstLines(n, VarRef("ret"), VarRef("i"), VarRef("n"));
    assert lines == Compiler.MAIN_CALL + lines[2..];
    var table := Constants.PORTS["ret" := 3];
    forall k | 0 <= k < 43
      ensures Constants.Substitute(table, lines[k]) == ProgramLine(k, n, Num(3), VarRef("i"), VarRef("n"))
    {
      SubstituteLine(k, n);
    }
    var built := Constants.ConstsBuilt(Compiler.MAIN_CALL + Source(n)).0;
    assert |built| == 43;
    forall k | 0 <= k < 43 ensures built[k] == Constants.Substitute(table, lines[k]) { }
    assert built == ProgramLines(n, Num(3), VarRef("i"), VarRef("n"));
  }

  lemma FirstLines(n: word, ret: Arg, i: Arg, last: Arg)
    ensures ProgramLine(0, n, ret, i, last) == Compiler.MAIN_CALL[0]
    ensures ProgramLine(1, n, ret, i, last) == Compiler.MAIN_CALL[1]
  {
  }

  lemma ConstsFront()
    ensures var front := Compiler.MAIN_CALL + [Const("ret", StringConst(TEXT))];
            && Constants.WithoutConsts(front) == Compiler.MAIN_CALL
            && Constants.Table(front) == Constants.PORTS["ret" := 3]
            && Constants.Data(front) == TEXT + [0]
  {
    var front := Compiler.MAIN_CALL + [Const("ret", StringConst(TEXT))];
    assert Init(front) == Compiler.MAIN_CALL;
    ConstsOnlyInFront([], Compiler.MAIN_CALL);
    assert [] + Compiler.MAIN_CALL == Compiler.MAIN_CALL;
  }

  /** Line `k` is an instruction, unless it is one of the three labels. */
  lemma LineIsCode(k: nat, n: word, ret: Arg, i: Arg, last: Arg)
    requires k < 43
    ensures ProgramLine(k, n, ret, i, last).Ins? <==> k !in {2, 9, 32}
    ensures !ProgramLine(k, n, ret, i, last).Const? && !ProgramLine(k, n, ret, i, last).Include?
  {
  }

  lemma SubstituteLine(k: nat, n: word)
    requires k < 43
    ensures Constants.Substitute(Constants.PORTS["ret" := 3], ProgramLine(k, n, VarRef("ret"), VarRef("i"), VarRef("n")))
            == ProgramLine(k, n, Num(3), VarRef("i"), VarRef("n"))
  {
    assert |"i"| == 1 && |"n"| == 1 && |"ret"| == 3 && |"ddrb"| == 4 && |"portb"| == 5 && |"pinb"| == 4;
  }

  /** Lines that are neither functions nor allocations leave the allocation state as it is. */
  lemma {:induction false} NothingAllocated(lines: seq<Line>, i: nat, j: nat)
    requires i <= j <= |lines|
    requires forall k :: i <= k < j ==> !lines[k].Fn? && !Locals.IsAlloc(lines[k])
    ensures Locals.Allocated(lines, j) == Locals.Allocated(lines, i)
    decreases j
  {
    if i < j {
      NothingAllocated(lines, i, j - 1);
    }
  }

  lemma AllocLines(k: nat, n: word)
    requires k < 43
    ensures var line := ProgramLine(k, n, Num(3), VarRef("i"), VarRef("n"));
            && (line.Fn? <==> k in {2, 9}) && (Locals.IsAlloc(line) <==> k in {11, 16})
            && (k == 11 ==> line.arg == VarRef("i")) && (k == 16 ==> line.arg == VarRef("n"))
            && (k in {10, 15} ==> line == Ins(PushLU16, Num(2)))
            && (k < 10 && line.Ins? ==> !line.arg.VarRef?)
  {
  }

  function LocalTable(): map<string, int> {
    map[Locals.Key("incr", "i") := 0, Locals.Key("incr", "n") := 2]
  }

  lemma AllocPass(n: word)
    ensures var lines := ProgramLines(n, Num(3), VarRef("i"), VarRef("n"));

            && Locals.Allocated(lines, 43) == Ok(Locals.Alloc(Some("incr"), 4, LocalTable()))
  {
    hide ProgramLine, Locals.Key;
    var lines := ProgramLines(n, Num(3), VarRef("i"), VarRef("n"));
    forall k | 0 <= k < 43
      ensures lines[k].Fn? <==> k in {2, 9}
      ensures Locals.IsAlloc(lines[k]) <==> k in {11, 16}
    {
      AllocLines(k, n);
    }
    AllocLines(11, n);
    AllocLines(16, n);
    NothingAllocated(lines, 0, 2);
    NothingAllocated(lines, 3, 9);
    NothingAllocated(lines, 10, 11);
    NothingAllocated(lines, 12, 16);
    NothingAllocated(lines, 17, 43);
    FnLines(n);
    AllocLines(10, n);
    AllocLines(15, n);
    assert |"i"| == 1 && "i"[0] != "n"[0];
    Locals.KeysDistinct("incr", "i", "n");
    assert Locals.Allocated(lines, 10) == Ok(Locals.Alloc(Some("incr"), 0, map[]));
    assert Locals.Allocated(lines, 12) == Ok(Locals.Alloc(Some("incr"), 2, map[Locals.Key("incr", "i") := 0]));
  }

  lemma FnLines(n: word)
    ensures ProgramLine(2, n, Num(3), VarRef("i"), VarRef("n")) == Fn("main")
    ensures ProgramLine(9, n, Num(3), VarRef("i"), VarRef("n")) == Fn("incr")
    ensures ProgramLine(32, n, Num(3), VarRef("i"), VarRef("n")) == Label("call_incr")
  {
  }

  lemma {:induction false} PrefixIsIncr(lines: seq<Line>, k: nat, initial: Option<string>)
    requires 10 <= k <= |lines| && lines[9] == Fn("incr")
    requires forall j :: 10 <= j < k ==> !lines[j].Fn?
    ensures Locals.PrefixAt(lines, k, initial) == Some("incr")
    decreases k
  {
    if k > 10 {
      PrefixIsIncr(lines, k - 1, initial);
    }
  }

  lemma LocateLine(k: nat, n: word, prefix: Option<string>)
    requires k < 43 && (k >= 10 ==> prefix == Some("incr"))
    ensures Locals.Located(ProgramLine(k, n, Num(3), VarRef("i"), VarRef("n")), prefix, LocalTable())
            == Ok(ProgramLine(k, n, Num(3), Num(0), Num(2)))
  {
    hide Locals.Key;
    assert |"i"| == 1 && "i"[0] != "n"[0];
    Locals.KeysDistinct("incr", "i", "n");
  }

  lemma {:induction false} LocatedLines(lines: seq<Line>, i: nat, st: Locals.Alloc, out: seq<Line>)
    requires i <= |lines| && i <= |out|
    requires forall k :: 0 <= k < i ==> Locals.Located(lines[k], Locals.PrefixAt(lines, k, st.prefix), st.table) == Ok(out[k])
    ensures Locals.LocatedUpTo(lines, i, st) == Ok(out[..i])
    decreases i
  {
    hide Locals.Located, Locals.PrefixAt;
    if i > 0 {
      LocatedLines(lines, i - 1, st, out);
      assert out[..i] == out[..i - 1] + [out[i - 1]];
    }
  }

  /** The layout passes turn the source into `Final(n)` and the text. */
  lemma LayoutPasses(n: word)
    ensures Compiler.Layout(Compiler.MAIN_CALL + Source(n)) == Ok((Final(n), TEXT + [0]))
  {
    hide ProgramLine, Constants.ConstsBuilt, LocalTable, Locals.Located;
    ConstPass(n);
    AllocPass(n);
    FnLines(n);
    var lines := ProgramLines(n, Num(3), VarRef("i"), VarRef("n"));
    var st := Locals.Alloc(Some("incr"), 4, LocalTable());
    forall k | 0 <= k < 43
      ensures Locals.Located(lines[k], Locals.PrefixAt(lines, k, st.prefix), st.table) == Ok(Final(n)[k])
    {
      forall j | 10 <= j < k ensures !lines[j].Fn? { AllocLines(j, n); }
      if k >= 10 { PrefixIsIncr(lines, k, st.prefix); }
      LocateLine(k, n, Locals.PrefixAt(lines, k, st.prefix));
    }
    LocatedLines(lines, 43, st, Final(n));
    WholeFinal(n);
  }

  lemma WholeFinal(n: word)
    ensures Final(n)[..43] == Final(n)
  {
    hide ProgramLine;
  }

  // ----- the labelled program -----

  /** Instructions before line `k`. */
  function Before(k: nat): int {
    k - (if k > 2 then 1 else 0) - (if k > 9 then 1 else 0) - (if k > 32 then 1 else 0)
  }

  /** The source line of instruction `c`. */
  function LineNumber(c: nat): nat {
    if c < 2 then c else if c < 8 then c + 1 else if c < 30 then c + 2 else c + 3
  }

  lemma {:induction false} CodeBefore(n: word, k: nat)
    requires k <= 43
    ensures |Assembler.Code(Final(n)[..k])| == Before(k)
  {
    hide ProgramLine;
    if k > 0 {
      var lines := Final(n)[..k];
      assert Init(lines) == Final(n)[..k - 1] && Last(lines) == Final(n)[k - 1];
      CodeBefore(n, k - 1);
      LineIsCode(k - 1, n, Num(3), Num(0), Num(2));
    }
  }

  /** An instruction line of `lines` stands in the code after the instructions before it. */
  lemma {:induction false} CodeAt(lines: seq<Line>, k: nat)
    requires k < |lines| && lines[k].Ins?
    ensures |Assembler.Code(lines[..k])| < |Assembler.Code(lines)|
    ensures Assembler.Code(lines)[|Assembler.Code(lines[..k])|] == lines[k]
  {
    if k == |lines| - 1 {
      assert Init(lines) == lines[..k];
    } else {
      assert Init(lines)[..k] == lines[..k] && Init(lines)[k] == lines[k];
      CodeAt(Init(lines), k);
    }
  }

  lemma FinalCode(n: word, c: nat)
    requires c < 40
    ensures |Assembler.Code(Final(n))| == 40
    ensures Assembler.Code(Final(n))[c] == ProgramLine(LineNumber(c), n, Num(3), Num(0), Num(2))
  {
    hide ProgramLine, Assembler.Code, Final;
    CodeBefore(n, 43);
    WholeFinal(n);
    var k := LineNumber(c);
    CodeBefore(n, k);
    FinalLine(n, k);
    LineIsCode(k, n, Num(3), Num(0), Num(2));
    CodeAt(Final(n), k);
  }

  lemma FinalLine(n: word, k: nat)
    requires k < 43
    ensures |Final(n)| == 43 && Final(n)[k] == ProgramLine(k, n, Num(3), Num(0), Num(2))
  {
  }

  lemma FinalLabels(n: word)
    ensures LineOf(Final(n), "main") == Some(2)
    ensures LineOf(Final(n), "incr") == Some(8)
    ensures LineOf(Final(n), "call_incr") == Some(30)
  {
    hide ProgramLine, LineOf, Assembler.Code;
    var lines := Final(n);
    FinalLine(n, 2);
    FinalLine(n, 9);
    FinalLine(n, 32);
    FinalNames(n);
    forall k | 0 <= k < 43 ensures lines[k].IsLabel() <==> k in {2, 9, 32}
    {
      FinalLine(n, k);
      LineIsCode(k, n, Num(3), Num(0), Num(2));
    }
    assert "main"[0] != "incr"[0] && |"call_incr"| == 9 && |"main"| == 4 && |"incr"| == 4;
    LineOfUnique(lines, 2);
    LineOfUnique(lines, 9);
    LineOfUnique(lines, 32);
    CodeBefore(n, 2);
    CodeBefore(n, 9);
    CodeBefore(n, 32);
  }

  lemma FinalNames(n: word)
    ensures ProgramLine(2, n, Num(3), Num(0), Num(2)) == Fn("main")
    ensures ProgramLine(9, n, Num(3), Num(0), Num(2)) == Fn("incr")
    ensures ProgramLine(32, n, Num(3), Num(0), Num(2)) == Label("call_incr")
  {
  }

  lemma LineFits(k: nat, n: word)
    requires k < 43 && k !in {2, 9, 32}
    ensures var line := ProgramLine(k, n, Num(3), Num(0), Num(2));
            line.Ins? && (line.arg.LabelRef? ==> line.arg.name in {"main", "incr", "call_incr"})
            && (Size(line.op) == 3 ==> line.arg.Num? || line.arg.LabelRef?) && Size(line.op) != 5
  {
  }

  lemma FinalIsWellFormed(n: word)
    ensures WellFormed(Final(n))
  {
    hide ProgramLine, Assembler.Code, LineOf, Size;
    FinalLabels(n);
    forall k | 0 <= k < 43 ensures Final(n)[k].IsLabel() || Final(n)[k].Ins?
    {
      FinalLine(n, k);
      LineIsCode(k, n, Num(3), Num(0), Num(2));
      FinalNames(n);
    }
    FinalCode(n, 0);
    forall c | 0 <= c < 40 ensures LineOk(Final(n), Assembler.Code(Final(n))[c])
    {
      FinalCode(n, c);
      LineFits(LineNumber(c), n);
    }
  }

  lemma {:induction false} SmallCode(code: seq<Line>)
    requires forall j :: 0 <= j < |code| ==> code[j].Ins?
    ensures CodeSize(code) <= 5 * |code|
  {
    if code != [] {
      SmallCode(Init(code));
    }
  }

  /** The image that the compiler makes of the source. */
  ghost function ImageOf(n: word, platform: Platform): (image: Image)
    requires platform.ports == Constants.PORT_COUNT
    ensures Compiler.Compiled(map[], "", Source(n)) == Ok((image.program, image.dataAddress))
    ensures image.platform == platform && image.Valid()
    ensures Labelled.Compiled(Final(n), image) && ProgramOf(Final(n), image).Valid()
    ensures image.Context() == Env(TEXT + [0], platform)
  {
    SourceCompiles(n);
    Compiler.ImageOfCompilation(map[], "", Source(n), platform);
    var (program, dataAddress) := Compiler.Compiled(map[], "", Source(n)).value;
    Image(program, dataAddress, platform)
  }

  lemma SourceCompiles(n: word)
    ensures Includes.Expanded(map[], "", Source(n), []) == Ok(Includes.Expansion(Source(n), []))
    ensures Compiler.Layout(Compiler.MAIN_CALL + Source(n)) == Ok((Final(n), TEXT + [0]))
    ensures Compiler.Compiled(map[], "", Source(n)).Ok?
    ensures var (program, dataAddress) := Compiler.Compiled(map[], "", Source(n)).value;
            |program| < 65536 && program[dataAddress..] == TEXT + [0]
  {
    hide Compiler.Layout, ProgramLine, JumpsBuilt, Encoded, Includes.Expanded, Final;
    NoSourceIncludes(n);
    Includes.NoIncludesUnchanged(map[], "", Source(n), []);
    LayoutPasses(n);
    FinalIsWellFormed(n);
    WellFormedAssembles(Final(n));
    CodeIsSmall(n);
    var code := Assembled(Final(n)).value;
    assert (code + (TEXT + [0]))[|code|..] == TEXT + [0];
  }

  lemma NoSourceIncludes(n: word)
    ensures Includes.NoIncludes(Source(n))
  {
    hide ProgramLine;
    var lines := ProgramLines(n, VarRef("ret"), VarRef("i"), VarRef("n"));
    forall k | 0 <= k < 43 ensures !lines[k].Include? { LineIsCode(k, n, VarRef("ret"), VarRef("i"), VarRef("n")); }
  }

  lemma CodeIsSmall(n: word)
    requires Assembled(Final(n)).Ok?
    ensures |Assembled(Final(n)).value| <= 200
  {
    hide ProgramLine, Final;
    FinalCode(n, 0);
    ResolveKeepsSizes(Addresses(Final(n)), Assembler.Code(Final(n)));
    SmallCode(Assembler.Code(Final(n)));
  }

  /** `.incr` lies at line 8 of the compiled program. */
  lemma ProgramHasIncr(n: word, platform: Platform)
    requires platform.ports == Constants.PORT_COUNT && platform.pointer >= 2
    ensures HasIncr(ProgramOf(Final(n), ImageOf(n, platform)), 8)
  {
    hide ProgramLine, IncrWith, Assembler.Code, LineOf;
    FinalLabels(n);
    var p := ProgramOf(Final(n), ImageOf(n, platform));
    forall k | 0 <= k < 32 ensures LineAt(p, 8 + k, IncrLine(k))
    {
      FinalCode(n, 8 + k);
      IncrLineNumber(n, k);
    }
  }

  lemma IncrLineNumber(n: word, k: nat)
    requires k < 32
    ensures ProgramLine(LineNumber(8 + k), n, Num(3), Num(0), Num(2)) == IncrLine(k)
  {
    hide IncrWith;
  }

  /** Instruction `c` of `.main` and of the two lines in front of it. */
  function MainCode(c: nat, n: word): Line
    requires c < 8
  {
    MainLine(LineNumber(c), n, Num(3))
  }

  /** What the run depends on. */
  predicate IsProgram(p: LProgram, n: word, platform: Platform) {
    && p.Valid() && p.env == Env(TEXT + [0], platform) && |p.Code()| == 40
    && HasIncr(p, 8) && LineOf(p.lines, "main") == Some(2)
    && forall c :: 0 <= c < 8 ==> LineAt(p, c, MainCode(c, n))
  }

  lemma CompiledIsProgram(n: word, platform: Platform)
    requires platform.ports == Constants.PORT_COUNT && platform.pointer >= 2
    ensures IsProgram(ProgramOf(Final(n), ImageOf(n, platform)), n, platform)
  {
    hide Assembler.Code, MainLine, HasIncr, LineOf, Final;
    var p := ProgramOf(Final(n), ImageOf(n, platform));
    ProgramHasIncr(n, platform);
    FinalLabels(n);
    forall c | 0 <= c < 8 ensures LineAt(p, c, MainCode(c, n))
    {
      FinalCode(n, c);
    }
    FinalCode(n, 0);
  }

  lemma MainLineAt(p: LProgram, n: word, platform: Platform)
    requires IsProgram(p, n, platform)
    ensures LineAt(p, 0, Ins(Call, LabelRef("main"))) && LineAt(p, 1, Ins(Halt, NoArg))
    ensures LineAt(p, 2, Ins(PushLU16, Num(n))) && LineAt(p, 3, Ins(PushLU16, Num(1)))
    ensures LineAt(p, 4, Ins(Call, LabelRef("incr"))) && LineAt(p, 5, Ins(PushLU16, Num(3)))
    ensures LineAt(p, 6, Ins(SysCall, Num(0))) && LineAt(p, 7, Ins(Return, NoArg))
  {
    hide LineAt;
    assert LineAt(p, 0, MainCode(0, n)) && LineAt(p, 1, MainCode(1, n)) && LineAt(p, 2, MainCode(2, n));
    assert LineAt(p, 3, MainCode(3, n)) && LineAt(p, 4, MainCode(4, n)) && LineAt(p, 5, MainCode(5, n));
    assert LineAt(p, 6, MainCode(6, n)) && LineAt(p, 7, MainCode(7, n));
  }

  // ----- the run -----

  lemma {:induction false} PrintSkips(env: Env, i: nat, j: nat, ops: Stk)
    requires i <= j <= |env.data|
    requires forall k :: i <= k < j ==> env.data[k] != 0 && env.data[k] != '%' as int
    ensures Print(env, i, ops) == Print(env, j, ops)
    decreases j - i
  {
    if i < j {
      PrintSkips(env, i + 1, j, ops);
    }
  }

  /** `SYSCALL 0` on the program's text takes one number. */
  lemma PrintsNumber(platform: Platform, ops: Stk, stk: Stk, w: word, input: Input)
    requires platform.ports == Constants.PORT_COUNT
    requires OpsAre(ops, HighLow(w) + HighLow(3), 0)
    ensures DataOp(Env(TEXT + [0], platform), Instr(SysCall, LowHigh(0)), ops, stk, input)
            == Done(Effect(ops.(sp := 0), stk, Printed([LowHigh(w)])))
  {
    hide HighLow, LowHigh, PopWord, Pop;
    var env := Env(TEXT + [0], platform);
    Recursion.PopTopWord(ops, HighLow(w), 3, 0);
    var ops1 := ops.(sp := |HighLow(w)|);
    assert OpsAre(ops1, [] + HighLow(w), 2) by { assert [] + HighLow(w) == HighLow(w); }
    PopTwo(ops1, [], w, 2);
    PrintsText(env, ops1, LowHigh(w), ops.(sp := 0));
    LowHighInjective(Instr(SysCall, LowHigh(0)).Word(), 0);
  }

  lemma PrintsText(env: Env, ops: Stk, v: seq<byte>, rest: Stk)
    requires env.data == TEXT + [0] && Pop(ops, 2) == Done((v, rest))
    ensures Print(env, 0, ops) == Done((rest, [v]))
  {
    hide Pop;
    forall k | 0 <= k < 8 || k == 10 ensures env.data[k] != 0 && env.data[k] != '%' as int { }
    PrintSkips(env, 0, 8, ops);
    PrintSkips(env, 10, 11, rest);
    assert env.data[8] == '%' as int && env.data[9] == 'u' as int && env.data[11] == 0;
    assert Print(env, 11, rest) == Done((rest, []));
    assert PrintSize(env.platform, env.data[9]) == 2;
    assert [v] + [] == [v];
    assert Print(env, 8, ops) == Done((rest, [v]));
  }

  /** The state at power-on: empty stacks of the given sizes. */
  /** Lines run: the calls, `.incr`, and the lines of `.main`. */
  function TotalSteps(n: word): nat { 8 + Steps(Depth(1, n)) }

  /** `.main` up to the call of `.incr`: `n` and 1 are on the operand stack. */
  lemma MainStarts(p: LProgram, n: word, platform: Platform, opsSize: word, size: word, ins: seq<Input>) returns (t: LThread)
    requires IsProgram(p, n, platform)
    requires 8 <= opsSize < 65534 && size < 65534 && |ins| >= 3
    ensures var th := LThread(At(0), Fresh(opsSize), Fresh(size));
            && (size >= 4 ==>
                  && t.pc == At(4) && OpsAre(t.ops, HighLow(n) + HighLow(1), 4)
                  && t.stk.sp == t.stk.bp == 4 && |t.stk.data| == size
                  && t.stk.data[0..4] == HighLow(p.tokens[1]) + HighLow(0)
                  && Observe(p, th, ins) == Observe(p, t, ins[3..]))
            && (size < 4 ==> Observe(p, th, ins).loud == [] && Observe(p, th, ins).end == Exited(FAILURE))
  {
    hide LProgram.Step, LineAt, Observe, HighLow, HasIncr;
    MainLineAt(p, n, platform);
    var th := LThread(At(0), Fresh(opsSize), Fresh(size));
    t := CallStep(p, th, 0, "main", 2, ins);
    if size >= 4 {
      assert OpsAre(t.ops, [], 8);
      var t1 := PushStep(p, t, 2, n, [], 8, ins[1..]);
      assert [] + HighLow(n) == HighLow(n);
      t := PushStep(p, t1, 3, 1, HighLow(n), 6, ins[2..]);
    }
  }

  /** After `.incr`: print, return, halt. */
  lemma MainEnds(p: LProgram, n: word, platform: Platform, t: LThread, ins: seq<Input>)
    requires IsProgram(p, n, platform) && platform.ports == Constants.PORT_COUNT
    requires t.pc == At(5) && OpsAre(t.ops, HighLow(n), 6) && |ins| >= 4
    requires t.stk.sp == t.stk.bp == 4 <= |t.stk.data|
    requires t.stk.data[0..4] == HighLow(p.tokens[1]) + HighLow(0)
    ensures Observe(p, t, ins) == Summary([Printed([LowHigh(n)])], Exited(0), 4)
  {
    hide LProgram.Step, LineAt, HighLow, LowHigh, DataOp, Observe, HasIncr;
    MainLineAt(p, n, platform);
    var t1 := PushStep(p, t, 5, 3, HighLow(n), 6, ins);
    PrintsNumber(platform, t1.ops, t1.stk, n, ins[1]);
    StepIsDataOp(p, t1, 6, Ins(SysCall, Num(0)), ins[1]);
    var t2 := LThread(At(7), t1.ops.(sp := 0), t1.stk);
    LineIsThere(p, 6, Ins(SysCall, Num(0)));
    Heard(p, t1, t2, Printed([LowHigh(n)]), ins[1..]);
    var t3 := ReturnStep(p, t2, 7, 1, 0, 0, ins[2..]);
    HaltStep(p, t3, ins[3..]);
  }

  lemma HaltStep(p: LProgram, th: LThread, ins: seq<Input>)
    requires p.Valid() && th.pc == At(1) && LineAt(p, 1, Ins(Halt, NoArg)) && ins != []
    ensures Observe(p, th, ins) == Summary([], Exited(0), th.stk.sp)
  {
    StepIsDataOp(p, th, 1, Ins(Halt, NoArg), ins[0]);
  }

  lemma Heard(p: LProgram, th: LThread, t: LThread, e: Event, ins: seq<Input>)
    requires p.Valid() && p.OnLine(th.pc) && ins != [] && !e.Silent?
    requires p.Step(th, ins[0]) == Done((t, e))
    ensures Observe(p, th, ins).loud == [e] + Observe(p, t, ins[1..]).loud
    ensures Observe(p, th, ins).end == Observe(p, t, ins[1..]).end
    ensures Observe(p, th, ins).peak == Max(th.stk.sp, Observe(p, t, ins[1..]).peak)
  {
    hide LProgram.Step;
  }

  /** The labelled program prints `n` and halts when its frames fit, and exits with a failure otherwise. */
  lemma ProgramRuns(p: LProgram, n: word, platform: Platform, opsSize: word, size: word, ins: seq<Input>)
    requires IsProgram(p, n, platform) && platform.ports == Constants.PORT_COUNT
    requires 8 <= opsSize < 65534 && size < 65534 && |ins| >= TotalSteps(n)
    ensures var r := Observe(p, LThread(At(0), Fresh(opsSize), Fresh(size)), ins);
            var need := 4 + 8 * (Depth(1, n) + 1);
            && (need <= size ==> r == Summary([Printed([LowHigh(n)])], Exited(0), need))
            && (need > size ==> r.loud == [] && r.end == Exited(FAILURE))
  {
    hide LProgram.Step, LineAt, Observe, HighLow, LowHigh, HasIncr;
    MainLineAt(p, n, platform);
    var t := MainStarts(p, n, platform, opsSize, size, ins);
    var m := Depth(1, n);
    if size >= 4 {
      assert [] + HighLow(n) == HighLow(n);
      var u := IncrCall(p, 8, t, 4, 1, n, [], ins[3..]);
      if 4 + 8 * (m + 1) <= size {
        Drops(ins, 3, Steps(m));
        SliceOfSlice(u.stk.data, 0, 4, 0, 4);
        SliceOfSlice(t.stk.data, 0, 4, 0, 4);
        MainEnds(p, n, platform, u, ins[3 + Steps(m)..]);
      }
    }
  }

  // ----- down to the bytes -----

  function Loud(events: seq<Event>): seq<Event> {
    if events == [] then [] else (if events[0].Silent? then [] else [events[0]]) + Loud(events[1..])
  }

  lemma {:induction false} ObserveIsRun(p: LProgram, th: LThread, ins: seq<Input>)
    requires p.Valid()
    ensures Observe(p, th, ins).end == p.Run(th, ins).end
    ensures Observe(p, th, ins).loud == Loud(p.Run(th, ins).events)
    ensures !p.Run(th, ins).end.Done? ==> p.Stays(th, ins)
    decreases |ins|
  {
    hide LProgram.Step;
    if ins != [] && p.OnLine(th.pc) && p.Step(th, ins[0]).Done? {
      var (t, e) := p.Step(th, ins[0]).value;
      ObserveIsRun(p, t, ins[1..]);
      assert ([e] + p.Run(t, ins[1..]).events)[1..] == p.Run(t, ins[1..]).events;
    }
  }

  /** The verified recursive program. Compile programs/recursion.rfl with any number `n` in its first
      line and run the image on the byte machine from power-on: it prints `n` and exits with code 0 if and
      only if the call stack has at least `4 + 8 * (((n - 1) mod 2^16) + 1)` bytes; otherwise
      it prints nothing and exits with a failure. */
  lemma CompiledProgramRuns(n: word, image: Image, opsSize: word, size: word, ins: seq<Input>)
    requires image.Valid() && image.platform.ports == Constants.PORT_COUNT && image.platform.pointer >= 2
    requires Compiler.Compiled(map[], "", Source(n)) == Ok((image.program, image.dataAddress))
    requires 8 <= opsSize < 65534 && size < 65534 && |ins| >= TotalSteps(n)
    ensures var r := Run(image, Thread(0, Fresh(opsSize), Fresh(size)), ins);
            var need := 4 + 8 * (Depth(1, n) + 1);
            && (need <= size ==> Loud(r.events) == [Printed([LowHigh(n)])] && r.end == Exited(0))
            && (need > size ==> Loud(r.events) == [] && r.end == Exited(FAILURE))
  {
    hide LProgram.Step, Observe, Final, LowHigh, Assembler.Code, Machine.Step, IsProgram, Depth, Steps;
    assert image == ImageOf(n, image.platform);
    var p := ProgramOf(Final(n), image);
    var th := LThread(At(0), Fresh(opsSize), Fresh(size));
    CompiledIsProgram(n, image.platform);
    ProgramRuns(p, n, image.platform, opsSize, size, ins);
    ObserveIsRun(p, th, ins);
    RunSimulates(Final(n), image, th, ins);
    FirstToken(p);
  }

  lemma FirstToken(p: LProgram)
    requires p.Valid() && forall k :: 0 <= k < |p.tokens| ==> p.tokens[k] == Addr(p.Code(), k)
    ensures p.tokens[0] == 0
  {
  }

  /** For `n >= 1` that is `4 + 8 * n` bytes: at most 511 levels with a stack of 4096 bytes, at most 7 with 64. For
      `n == 0` the counter goes once around all 16-bit words, and no stack is large enough. */
  lemma DeepestRecursion(n: word, size: word)
    ensures 4 + 8 * (Depth(1, n) + 1) <= size <==> 1 <= n && 4 + 8 * n <= size
    ensures 4 + 8 * (Depth(1, n) + 1) <= 4096 <==> 1 <= n <= 511
    ensures 4 + 8 * (Depth(1, n) + 1) <= 64 <==> 1 <= n <= 7
  {
    hide Wrap;
    if n >= 1 {
      WrapSmall(n - 1);
    } else {
      assert Wrap(-1) == 65535 by { WrapMinusOne(); }
    }
  }

  lemma WrapMinusOne()
    ensures Wrap(-1) == 65535
  {
  }

  lemma WrapSmall(x: int)
    requires 0 <= x < 65536
    ensures Wrap(x) == x
  {
  }
}
