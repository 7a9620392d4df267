/** Tokenised source lines and the back end of compiler.py: label resolution, encoding, listing. */
module Assembler {
  import opened Bytes
  import opened Isa
  import opened Machine

  datatype Arg =
    | NoArg
    | Num(v: int)
    | Float(bits: Quad)
    | LabelRef(name: string)
    | VarRef(name: string)

  datatype ConstValue = StringConst(utf8: seq<byte>) | U16Const(v: int) | OtherConst

  datatype Line =
    | Fn(name: string)
    | Label(name: string)
    | Ins(op: Op, arg: Arg)
    | Const(name: string, value: ConstValue)
    | Include(path: string)
  {
    predicate IsLabel() { Fn? || Label? }
  }

  /** `Crash` stands for an uncaught Python exception. */
  datatype Result<+T> = Ok(value: T) | Crash {
    predicate IsFailure() { Crash? }
    function PropagateFailure<U>(): Result<U> requires Crash? { Crash }
    function Extract(): T requires Ok? { value }
  }

  // ----- labels -----

  /** The instruction lines, in order. */
  function Code(lines: seq<Line>): (code: seq<Line>)
    ensures forall k :: 0 <= k < |code| ==> code[k].Ins?
  {
    if lines == [] then []
    else Code(Init(lines)) + if Last(lines).Ins? then [Last(lines)] else []
  }

  function CodeSize(code: seq<Line>): nat
    requires forall k :: 0 <= k < |code| ==> code[k].Ins?
  {
    if code == [] then 0 else CodeSize(Init(code)) + Size(Last(code).op)
  }

  /** The byte address of instruction `k`; for `k == |code|`, the end of the code. */
  function Addr(code: seq<Line>, k: nat): nat
    requires k <= |code| && forall j :: 0 <= j < |code| ==> code[j].Ins?
  {
    CodeSize(code[..k])
  }

  /** The address table of the first loop of `build_jumps`: a later definition replaces an earlier one. */
  function Addresses(lines: seq<Line>): map<string, nat>
  {
    if lines == [] then map[]
    else if Last(lines).IsLabel() then Addresses(Init(lines))[Last(lines).name := CodeSize(Code(Init(lines)))]
    else Addresses(Init(lines))
  }

  predicate LabelsDefined(table: map<string, nat>, code: seq<Line>) {
    forall k :: 0 <= k < |code| && code[k].Ins? && code[k].arg.LabelRef? ==> code[k].arg.name in table
  }

  function ResolveLine(table: map<string, nat>, line: Line): Line {
    if line.Ins? && line.arg.LabelRef? && line.arg.name in table then Ins(line.op, Num(table[line.arg.name])) else line
  }

  function Resolve(table: map<string, nat>, code: seq<Line>): (r: seq<Line>)
    ensures |r| == |code|
    ensures forall k :: 0 <= k < |code| ==> r[k] == ResolveLine(table, code[k])
  {
    seq(|code|, k requires 0 <= k < |code| => ResolveLine(table, code[k]))
  }

  /** What reaches `build_jumps`: includes and constants are gone. */
  predicate Plain(lines: seq<Line>) {
    forall k :: 0 <= k < |lines| ==> lines[k].IsLabel() || lines[k].Ins?
  }

  function JumpsBuilt(lines: seq<Line>): Result<seq<Line>> {
    var code := Code(lines);
    if LabelsDefined(Addresses(lines), code) then Ok(Resolve(Addresses(lines), code)) else Crash
  }

  /** The first loop of `build_jumps`. */
  method CollectLabels(lines: seq<Line>) returns (newLines: seq<Line>, addresses: map<string, nat>)
    requires Plain(lines)
    ensures newLines == Code(lines) && addresses == Addresses(lines)
  {
    newLines, addresses := [], map[];
    var address: nat := 0;
    for i := 0 to |lines|
      invariant newLines == Code(lines[..i]) && addresses == Addresses(lines[..i])
      invariant address == CodeSize(newLines)
    {
      var content := lines[i];
      assert Init(lines[..i + 1]) == lines[..i] && Last(lines[..i + 1]) == content;
      if content.IsLabel() {
        addresses := addresses[content.name := address];
      } else {
        address := address + Size(content.op);
        assert Init(newLines + [content]) == newLines;
        newLines := newLines + [content];
      }
    }
    assert lines[..|lines|] == lines;
  }

  method BuildJumps(lines: seq<Line>) returns (r: Result<seq<Line>>)
    requires Plain(lines)
    ensures r == JumpsBuilt(lines)
  {
    var newLines, addresses := CollectLabels(lines);
    ghost var code := newLines;
    for i := 0 to |newLines|
      invariant |newLines| == |code|
      invariant LabelsDefined(addresses, code[..i])
      invariant forall k :: 0 <= k < i ==> newLines[k] == ResolveLine(addresses, code[k])
      invariant forall k :: i <= k < |code| ==> newLines[k] == code[k]
    {
      var content := newLines[i];
      if content.arg.LabelRef? {
        if content.arg.name !in addresses {
          assert code[i].Ins? && code[i].arg.LabelRef?;
          return Crash;
        }
        newLines := newLines[i := Ins(content.op, Num(addresses[content.arg.name]))];
      }
    }
    assert code[..|code|] == code;
    assert newLines == Resolve(addresses, code);
    return Ok(newLines);
  }

  // ----- operands -----

  /** `string_to_uint8_list`: little-endian bytes of the masked value. */
  function Uint8List(v: int, size: nat): (bytes: seq<byte>)
    ensures |bytes| == size
  {
    var masked := v % Pow2(8 * size);
    seq(size, i requires 0 <= i < size => (masked / Pow2(8 * i)) % 256)
  }

  lemma Uint8ListWord(v: int)
    ensures Uint8List(v, 2) == LowHigh(Wrap(v))
  {
    Pow2Sixteen();
    assert Pow2(8) == 256;
    var masked := v % 65536;
    assert Uint8List(v, 2)[0] == (masked / 1) % 256;
    assert Uint8List(v, 2)[1] == (masked / 256) % 256;
  }

  function AsInt8(b: byte): int { if b >= 128 then b - 256 else b }

  lemma Int16RoundTrip(v: int)
    requires -32768 <= v < 32768
    ensures Signed(Wrap(v)) == v
  {
  }

  /** `string_to_int8_list` yields signed bytes; stored in a `uint8_t` array they are the unsigned
      encoding, and a value in the `int16_t` range is read back unchanged. */
  method Int8List(v: int) returns (bytes: seq<int>)
    ensures |bytes| == 2 && forall i :: 0 <= i < 2 ==> -128 <= bytes[i] < 128
    ensures [bytes[0] % 256, bytes[1] % 256] == Uint8List(v, 2)
    ensures -32768 <= v < 32768 ==> Signed(ToWord(bytes[0] % 256, bytes[1] % 256)) == v
  {
    hide Uint8List;
    var unsigned := Uint8List(v, 2);
    bytes := [];
    for i := 0 to 2
      invariant |bytes| == i && forall k :: 0 <= k < i ==> bytes[k] == AsInt8(unsigned[k])
    {
      var value: int := unsigned[i];
      bytes := bytes + [if value >= 128 then value - 256 else value];
    }
    Uint8ListWord(v);
    LowHighInjective(ToWord(unsigned[0], unsigned[1]), Wrap(v));
    if -32768 <= v < 32768 { Int16RoundTrip(v); }
  }

  /** `encode_line`: a missing or malformed operand ends in an exception; operands of a
      one-byte instruction are ignored. */
  function EncodeLine(line: Line): Result<seq<byte>>
    requires line.Ins?
  {
    var arg :- OperandBytes(line.op, line.arg);
    Ok([Isa.Code(line.op)] + arg)
  }

  function OperandBytes(op: Op, arg: Arg): (r: Result<seq<byte>>)
    ensures r.Ok? ==> Instr(op, r.value).Valid()
  {
    if Size(op) == 1 then Ok([])
    else if Size(op) == 3 then if arg.Num? then Ok(Uint8List(arg.v, 2)) else Crash
    else if arg.Float? then Ok(arg.bits) else Crash
  }

  function Encoded(code: seq<Line>): (r: Result<seq<byte>>)
    requires forall k :: 0 <= k < |code| ==> code[k].Ins?
    ensures r.Ok? ==> |r.value| == CodeSize(code)
  {
    if code == [] then Ok([])
    else
      var front :- Encoded(Init(code));
      var back :- EncodeLine(Last(code));
      Ok(front + back)
  }

  /** Labels to bytes: the part of `compile_rfl` after the layout passes. */
  function Assembled(lines: seq<Line>): Result<seq<byte>> {
    var code :- JumpsBuilt(lines);
    Encoded(code)
  }

  method Assemble(lines: seq<Line>) returns (r: Result<seq<byte>>)
    requires Plain(lines)
    ensures r == Assembled(lines)
  {
    var built := BuildJumps(lines);
    if built.Crash? { return Crash; }
    var code := built.value;
    var program: seq<byte> := [];
    for i := 0 to |code|
      invariant Encoded(code[..i]) == Ok(program)
    {
      assert Init(code[..i + 1]) == code[..i];
      var bytes := EncodeLine(code[i]);
      if bytes.Crash? {
        EncodedPrefix(code, i + 1);
        return Crash;
      }
      program := program + bytes.value;
    }
    assert code[..|code|] == code;
    return Ok(program);
  }

  lemma {:induction false} EncodedPrefix(code: seq<Line>, i: nat)
    requires i <= |code| && forall k :: 0 <= k < |code| ==> code[k].Ins?
    ensures Encoded(code).Ok? ==> Encoded(code[..i]).Ok?
    ensures Encoded(code).Ok? ==> Encoded(code[..i]).value <= Encoded(code).value
  {
    if i < |code| {
      EncodedPrefix(Init(code), i);
      assert Init(code)[..i] == code[..i];
    } else {
      assert code[..i] == code;
    }
  }
}
