/** `print_code`: the listing of assembled code recovers the instructions. */
module Listing {
  import opened Bytes
  import opened Isa
  import opened Assembler
  import Labelled

  datatype Entry = Entry(address: nat, op: Op, operands: seq<byte>)

  /** The lines printed from `address` on; an unknown opcode ends the listing. */
  function Listed(code: seq<byte>, address: nat): seq<Entry>
    decreases |code| - address
  {
    if address >= |code| || Isa.Decode(code[address]).None? then []
    else
      var op := Isa.Decode(code[address]).value;
      var end := if address + Size(op) < |code| then address + Size(op) else |code|;
      [Entry(address, op, code[address + 1..end])] + Listed(code, address + Size(op))
  }

  method PrintCode(code: seq<byte>) returns (entries: seq<Entry>)
    ensures entries == Listed(code, 0)
  {
    entries := [];
    var address := 0;
    while address < |code|
      invariant entries + Listed(code, address) == Listed(code, 0)
    {
      var instruction := Isa.Decode(code[address]);
      if instruction.None? { break; }
      var op := instruction.value;
      var end := if address + Size(op) < |code| then address + Size(op) else |code|;
      entries := entries + [Entry(address, op, code[address + 1..end])];
      address := address + Size(op);
    }
  }

  /** What the source program says, with the addresses of its lines. */
  function Expected(code: seq<Line>, k: nat): seq<Entry>
    requires k <= |code| && forall j :: 0 <= j < |code| ==> code[j].Ins? && EncodeLine(code[j]).Ok?
    decreases |code| - k
  {
    if k == |code| then []
    else [Entry(Addr(code, k), code[k].op, EncodeLine(code[k]).value[1..])] + Expected(code, k + 1)
  }

  lemma {:induction false} EncodedLines(code: seq<Line>)
    requires forall j :: 0 <= j < |code| ==> code[j].Ins?
    requires Encoded(code).Ok?
    ensures forall j :: 0 <= j < |code| ==> EncodeLine(code[j]).Ok?
  {
    if code != [] {
      EncodedLines(Init(code));
      assert code == Init(code) + [Last(code)];
    }
  }

  /** Disassembly inverts assembly: the listing of the encoding visits exactly the encoded
      instructions, at their addresses, with their opcodes and operands. */
  lemma ListingInvertsEncoding(code: seq<Line>)
    requires forall j :: 0 <= j < |code| ==> code[j].Ins?
    requires Encoded(code).Ok?
    ensures forall j :: 0 <= j < |code| ==> EncodeLine(code[j]).Ok?
    ensures Listed(Encoded(code).value, 0) == Expected(code, 0)
  {
    EncodedLines(code);
    ListingFrom(code, 0);
  }

  lemma {:induction false} ListingFrom(code: seq<Line>, k: nat)
    requires k <= |code| && forall j :: 0 <= j < |code| ==> code[j].Ins? && EncodeLine(code[j]).Ok?
    requires Encoded(code).Ok?
    ensures Listed(Encoded(code).value, Addr(code, k)) == Expected(code, k)
    decreases |code| - k
  {
    hide Isa.Decode, Isa.Code, Size;
    var bytes := Encoded(code).value;
    if k == |code| {
      assert code[..k] == code;
    } else {
      ListingFrom(code, k + 1);
      Labelled.EncodedAt(code, k);
      Labelled.AddrStep(code, k);
      DecodeCode(code[k].op);
      var a := Addr(code, k);
      var line := bytes[a..Addr(code, k + 1)];
      assert bytes[a] == line[0] == Isa.Code(code[k].op);
      assert bytes[a + 1..Addr(code, k + 1)] == line[1..];
    }
  }

  /** A 16-bit operand is listed as its value modulo 2^16. */
  lemma ListedOperand(line: Line)
    requires line.Ins? && EncodeLine(line).Ok? && Size(line.op) == 3
    ensures line.arg.Num? && EncodeLine(line).value[1..] == LowHigh(Wrap(line.arg.v))
  {
    hide Isa.Code, Size;
    Uint8ListWord(line.arg.v);
  }
}
