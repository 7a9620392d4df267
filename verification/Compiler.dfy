/** `compile_rfl`: from source files to the image. */
module Compiler {
  import opened Bytes
  import opened Isa
  import opened Machine
  import opened Assembler
  import Includes
  import Constants
  import Locals
  import Labelled

  const MAIN_CALL: seq<Line> := [Ins(Call, LabelRef("main")), Ins(Halt, NoArg)]

  /** Lines after the layout passes, and the constant data. */
  function Layout(lines: seq<Line>): Result<(seq<Line>, seq<byte>)> {
    var (rest, data) := Constants.ConstsBuilt(lines);
    var located :- Locals.LocalsBuilt(rest);
    Ok((located, data))
  }

  /** The program image and the address of its data. */
  function Compiled(files: Includes.Files, dir: string, root: seq<Line>): Result<(seq<byte>, nat)> {
    var e :- Includes.Expanded(files, dir, root, []);
    var (lines, data) :- Layout(MAIN_CALL + e.lines);
    var code :- Assembled(lines);
    Ok((code + data, |code|))
  }

  method CompileRfl(files: Includes.Files, dir: string, root: seq<Line>) returns (r: Result<(seq<byte>, nat)>)
    ensures r == Compiled(files, dir, root)
  {
    var lines, _, failed := Includes.ProcessIncludes(files, dir, root, []);
    if failed { return Crash; }
    LayoutIsPlain(files, dir, root);
    var rest, data := Constants.BuildConstData(MAIN_CALL + lines);
    var located := Locals.BuildLocalVariables(rest);
    if located.Crash? { return Crash; }
    var code := Assemble(located.value);
    if code.Crash? { return Crash; }
    return Ok((code.value + data, |code.value|));
  }

  // ----- what the passes leave -----

  lemma {:induction false} WithoutConstsLines(lines: seq<Line>)
    requires Includes.NoIncludes(lines)
    ensures Plain(Constants.WithoutConsts(lines))
  {
    if lines != [] {
      WithoutConstsLines(Init(lines));
    }
  }

  lemma {:induction false} LocatedKinds(lines: seq<Line>, i: nat, st: Locals.Alloc)
    requires i <= |lines| && Plain(lines) && Locals.LocatedUpTo(lines, i, st).Ok?
    ensures Plain(Locals.LocatedUpTo(lines, i, st).value)
    decreases i
  {
    if i > 0 {
      LocatedKinds(lines, i - 1, st);
    }
  }

  /** After the layout passes only labels and instructions are left. */
  lemma LayoutIsPlain(files: Includes.Files, dir: string, root: seq<Line>)
    requires Includes.Expanded(files, dir, root, []).Ok?
    ensures var lines := MAIN_CALL + Includes.Expanded(files, dir, root, []).value.lines;
            Layout(lines).Ok? ==> Plain(Layout(lines).value.0)
  {
    Includes.ExpansionIsFlat(files, dir, root, []);
    var lines := MAIN_CALL + Includes.Expanded(files, dir, root, []).value.lines;
    WithoutConstsLines(lines);
    var rest := Constants.ConstsBuilt(lines).0;
    if Layout(lines).Ok? {
      LocatedKinds(rest, |rest|, Locals.Allocated(rest, |rest|).value);
    }
  }

  /** The whole pipeline: the image of a successful compilation holds the assembled labelled program,
      to which Labelled.RunSimulates applies, and the constants, to which Constants.ConstantIsFound applies. */
  lemma ImageOfCompilation(files: Includes.Files, dir: string, root: seq<Line>, platform: Platform)
    requires Compiled(files, dir, root).Ok? && |Compiled(files, dir, root).value.0| < 65536
    requires platform.ports == Constants.PORT_COUNT
    ensures Includes.Expanded(files, dir, root, []).Ok?
    ensures var (program, dataAddress) := Compiled(files, dir, root).value;
            var image := Image(program, dataAddress, platform);
            var source := MAIN_CALL + Includes.Expanded(files, dir, root, []).value.lines;
            && image.Valid() && Layout(source).Ok?
            && Labelled.Compiled(Layout(source).value.0, image)
            && Constants.Laid(source, image)
            && Labelled.ProgramOf(Layout(source).value.0, image).Valid()
  {
    LayoutIsPlain(files, dir, root);
    var (program, dataAddress) := Compiled(files, dir, root).value;
    var image := Image(program, dataAddress, platform);
    var source := MAIN_CALL + Includes.Expanded(files, dir, root, []).value.lines;
    var (lines, data) := Layout(source).value;
    var code := Assembled(lines).value;
    assert program[..dataAddress] == code && program[dataAddress..] == data;
    Labelled.CompiledIsValid(lines, image);
  }
}
