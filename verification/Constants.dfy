/** `build_const_data`: constants are laid out after the code, ports have the first addresses. */
module Constants {
  import opened Bytes
  import opened ByteStack
  import opened Isa
  import opened Machine
  import opened Assembler

  const PORTS: map<string, nat> := map["ddrb" := 0, "portb" := 1, "pinb" := 2]
  const PORT_COUNT: nat := 3

  /** A STRING has been turned into its UTF-8 bytes and a terminator by `to_utf8`. */
  function BytesOf(v: ConstValue): seq<byte> {
    match v
    case StringConst(utf8) => utf8 + [0]
    case U16Const(n) => Uint8List(n, 2)
    case OtherConst => []
  }

  function Data(lines: seq<Line>): seq<byte> {
    if lines == [] then []
    else Data(Init(lines)) + if Last(lines).Const? then BytesOf(Last(lines).value) else []
  }

  function Table(lines: seq<Line>): map<string, nat> {
    if lines == [] then PORTS
    else if Last(lines).Const? then Table(Init(lines))[Last(lines).name := |Data(Init(lines))| + PORT_COUNT]
    else Table(Init(lines))
  }

  function WithoutConsts(lines: seq<Line>): seq<Line> {
    if lines == [] then []
    else WithoutConsts(Init(lines)) + if Last(lines).Const? then [] else [Last(lines)]
  }

  function Substitute(table: map<string, nat>, line: Line): Line {
    if line.Ins? && line.arg.VarRef? && line.arg.name in table then Ins(line.op, Num(table[line.arg.name])) else line
  }

  function ConstsBuilt(lines: seq<Line>): (r: (seq<Line>, seq<byte>)) {
    var rest := WithoutConsts(lines);
    (seq(|rest|, k requires 0 <= k < |rest| => Substitute(Table(lines), rest[k])), Data(lines))
  }

  method BuildConstData(lines: seq<Line>) returns (newLines: seq<Line>, data: seq<byte>)
    ensures (newLines, data) == ConstsBuilt(lines)
  {
    var addresses := PORTS;
    data, newLines := [], [];
    for i := 0 to |lines|
      invariant addresses == Table(lines[..i]) && data == Data(lines[..i]) && newLines == WithoutConsts(lines[..i])
    {
      assert Init(lines[..i + 1]) == lines[..i] && Last(lines[..i + 1]) == lines[i];
      if lines[i].Const? {
        addresses := addresses[lines[i].name := |data| + PORT_COUNT];
        data := data + BytesOf(lines[i].value);
      } else {
        newLines := newLines + [lines[i]];
      }
    }
    assert lines[..|lines|] == lines;
    ghost var rest := newLines;
    for k := 0 to |newLines|
      invariant |newLines| == |rest|
      invariant forall j :: 0 <= j < k ==> newLines[j] == Substitute(addresses, rest[j])
      invariant forall j :: k <= j < |rest| ==> newLines[j] == rest[j]
    {
      var content := newLines[k];
      if content.Ins? && content.arg.VarRef? && content.arg.name in addresses {
        newLines := newLines[k := Ins(content.op, Num(addresses[content.arg.name]))];
      }
    }
    assert newLines == ConstsBuilt(lines).0;
  }

  // ----- where the constants are -----

  lemma {:induction false} DataPrefix(lines: seq<Line>, i: nat)
    requires i <= |lines|
    ensures Data(lines[..i]) <= Data(lines)
    decreases |lines|
  {
    if i == |lines| {
      assert lines[..i] == lines;
    } else {
      DataPrefix(Init(lines), i);
      assert Init(lines)[..i] == lines[..i];
    }
  }

  /** The block of constant `i`. */
  function Start(lines: seq<Line>, i: nat): nat
    requires i <= |lines|
  {
    |Data(lines[..i])|
  }

  lemma BlockIsThere(lines: seq<Line>, i: nat)
    requires i < |lines| && lines[i].Const?
    ensures Start(lines, i) + |BytesOf(lines[i].value)| <= |Data(lines)|
    ensures Data(lines)[Start(lines, i)..Start(lines, i) + |BytesOf(lines[i].value)|] == BytesOf(lines[i].value)
  {
    var upTo := lines[..i + 1];
    DataPrefix(lines, i + 1);
    assert Init(upTo) == lines[..i] && Last(upTo) == lines[i];
    var a, b := Data(lines[..i]), BytesOf(lines[i].value);
    assert Data(upTo) == a + b;
    Middle(a, b, Data(lines)[|a + b|..]);
    assert Data(lines) == a + b + Data(lines)[|a + b|..];
  }

  /** Blocks of distinct constants do not overlap. */
  lemma BlocksDisjoint(lines: seq<Line>, i: nat, j: nat)
    requires i < j < |lines| && lines[i].Const?
    ensures Start(lines, i) + |BytesOf(lines[i].value)| <= Start(lines, j)
  {
    BlockIsThere(lines[..j], i);
    assert lines[..j][..i] == lines[..i] && lines[..j][i] == lines[i];
  }

  /** A constant's name stands for its block, ports counted in. */
  lemma {:induction false} TableIsStart(lines: seq<Line>, i: nat)
    requires i < |lines| && lines[i].Const?
    requires forall j :: i < j < |lines| && lines[j].Const? ==> lines[j].name != lines[i].name
    ensures lines[i].name in Table(lines)
    ensures Table(lines)[lines[i].name] == Start(lines, i) + PORT_COUNT
    decreases |lines|
  {
    if i == |lines| - 1 {
      assert Init(lines) == lines[..i];
    } else {
      assert Init(lines)[i] == lines[i] && Init(lines)[..i] == lines[..i];
      TableIsStart(Init(lines), i);
    }
  }

  /** The image is laid out as `compile_rfl` does it, for the port bank of the compiler. */
  predicate Laid(lines: seq<Line>, image: Image) {
    image.Valid() && image.platform.ports == PORT_COUNT && image.program[image.dataAddress..] == Data(lines)
  }

  /** The address the compiler substitutes for a constant is where the VM finds its bytes: at
      `data_address + address - ports` of the image. */
  lemma ConstantIsFound(lines: seq<Line>, image: Image, i: nat)
    requires Laid(lines, image) && i < |lines| && lines[i].Const?
    requires forall j :: i < j < |lines| && lines[j].Const? ==> lines[j].name != lines[i].name
    ensures lines[i].name in Table(lines)
    ensures var at := image.dataAddress + Table(lines)[lines[i].name] - image.platform.ports;
            var size := |BytesOf(lines[i].value)|;
            image.dataAddress <= at && at + size <= |image.program|
            && image.program[at..at + size] == BytesOf(lines[i].value)
  {
    hide Table, Data, BytesOf;
    TableIsStart(lines, i);
    BlockIsThere(lines, i);
    var size := |BytesOf(lines[i].value)|;
    SliceOfSlice(image.program, image.dataAddress, |image.program|, Start(lines, i), Start(lines, i) + size);
  }

  /** The bytes up to the first zero, as C reads a string. */
  function CString(data: seq<byte>, i: nat): seq<byte>
    decreases |data| - i
  {
    if i >= |data| || data[i] == 0 then [] else [data[i]] + CString(data, i + 1)
  }

  lemma {:induction false} CStringOf(data: seq<byte>, i: nat, text: seq<byte>)
    requires i + |text| < |data| && data[i..i + |text|] == text && data[i + |text|] == 0
    requires 0 !in text
    ensures CString(data, i) == text
    decreases |text|
  {
    if text != [] {
      assert data[i] == text[0];
      assert data[i + 1..i + |text|] == data[i..i + |text|][1..] == text[1..];
      CStringOf(data, i + 1, text[1..]);
    }
  }

  /** A string constant without zero bytes is read back as its UTF-8 bytes. */
  lemma StringIsRead(lines: seq<Line>, image: Image, i: nat)
    requires Laid(lines, image) && i < |lines| && lines[i].Const? && lines[i].value.StringConst?
    requires 0 !in lines[i].value.utf8
    ensures CString(image.program, image.dataAddress + Start(lines, i)) == lines[i].value.utf8
  {
    BlockIsThere(lines, i);
    var text := lines[i].value.utf8;
    var s := Start(lines, i);
    var at := image.dataAddress + s;
    SliceOfSlice(image.program, image.dataAddress, |image.program|, s, s + |text| + 1);
    var block := image.program[at..at + |text| + 1];
    assert block == text + [0];
    assert image.program[at..at + |text|] == block[..|text|] == text;
    assert image.program[at + |text|] == block[|text|];
    CStringOf(image.program, at, text);
  }

  /** PUSH_U16 of a U16 constant pushes its low byte only. */
  lemma PushU16IsLowByte(lines: seq<Line>, image: Image, i: nat, address: word, ops: Stk, stk: Stk, input: Input)
    requires Laid(lines, image) && i < |lines| && lines[i].Const? && lines[i].value.U16Const?
    requires address == Start(lines, i) + PORT_COUNT
    ensures DataOp(image.Context(), Instr(PushU16, LowHigh(address)), ops, stk, input)
            == OnOps(PushWord(ops, lines[i].value.v % 256), stk)
  {
    hide PushWord, LowHigh;
    BlockIsThere(lines, i);
    Uint8ListWord(lines[i].value.v);
    LowByte(lines[i].value.v);
    var s := Start(lines, i);
    assert Data(lines)[s] == Data(lines)[s..s + 2][0];
    LowHighInjective(Instr(PushU16, LowHigh(address)).Word(), address);
  }

  lemma LowByte(v: int)
    ensures LowHigh(Wrap(v))[0] == v % 256
  {
    assert v == 65536 * (v / 65536) + v % 65536;
    assert (v % 65536) % 256 == v % 256;
  }
}
