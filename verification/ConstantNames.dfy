/** What `build_const_data` makes of a program, said line by line: which address stands for each name, and that the
    port names of the compiler are the registers of the VM. */
module ConstantNames {
  import opened Bytes
  import opened Assembler
  import opened Constants

  /** How many of the first `i` lines are kept. */
  function Place(lines: seq<Line>, i: nat): nat
    requires i <= |lines|
  {
    if i == 0 then 0 else Place(lines, i - 1) + if lines[i - 1].Const? then 0 else 1
  }

  /** Line `c` is the last one that defines the constant `x`. */
  predicate Defines(lines: seq<Line>, c: nat, x: string) {
    && c < |lines| && lines[c].Const? && lines[c].name == x
    && forall j :: c < j < |lines| && lines[j].Const? ==> lines[j].name != x
  }

  /** What the name `x` stands for: its constant, or else its port. */
  ghost predicate StandsFor(lines: seq<Line>, x: string, address: nat) {
    (exists c: nat :: Defines(lines, c, x) && address == Start(lines, c) + 3)
    || ((forall c: nat :: !Defines(lines, c, x))
        && ((x == "ddrb" && address == 0) || (x == "portb" && address == 1) || (x == "pinb" && address == 2)))
  }

  lemma {:induction false} KeptInPlace(lines: seq<Line>, i: nat)
    requires i < |lines| && !lines[i].Const?
    ensures |WithoutConsts(lines)| == Place(lines, |lines|)
    ensures Place(lines, i) < |WithoutConsts(lines)| && WithoutConsts(lines)[Place(lines, i)] == lines[i]
    decreases |lines|
  {
    var front := Init(lines);
    PlaceInit(lines, i);
    PlaceInit(lines, |front|);
    Length(front);
    if i < |front| {
      KeptInPlace(front, i);
    }
  }

  lemma {:induction false} Length(lines: seq<Line>)
    ensures |WithoutConsts(lines)| == Place(lines, |lines|)
    decreases |lines|
  {
    if lines != [] {
      Length(Init(lines));
      PlaceInit(lines, |lines| - 1);
    }
  }

  lemma {:induction false} PlaceInit(lines: seq<Line>, i: nat)
    requires lines != [] && i < |lines|
    ensures Place(lines, i) == Place(Init(lines), i)
    decreases i
  {
    if i > 0 {
      PlaceInit(lines, i - 1);
    }
  }

  /** Defined, in the program or as a port. */
  lemma {:induction false} TableMeans(lines: seq<Line>, x: string)
    ensures x in Table(lines) ==> StandsFor(lines, x, Table(lines)[x])
    ensures forall address: nat :: StandsFor(lines, x, address) ==> x in Table(lines) && Table(lines)[x] == address
    decreases |lines|
  {
    hide Table;
    if exists c: nat :: Defines(lines, c, x) {
      var c: nat :| Defines(lines, c, x);
      TableIsStart(lines, c);
      forall d: nat | Defines(lines, d, x) ensures d == c { }
    } else {
      NotDefined(lines, x);
    }
  }

  lemma DefinesMore(lines: seq<Line>, x: string)
    requires lines != [] && (Last(lines).Const? ==> Last(lines).name != x)
    ensures forall c: nat :: Defines(Init(lines), c, x) ==> Defines(lines, c, x)
  {
  }

  lemma {:induction false} NotDefined(lines: seq<Line>, x: string)
    requires forall c: nat :: !Defines(lines, c, x)
    ensures x in Table(lines) <==> x in PORTS
    ensures x in PORTS ==> Table(lines)[x] == PORTS[x]
    decreases |lines|
  {
    if lines != [] {
      assert !Defines(lines, |lines| - 1, x);
      DefinesMore(lines, x);
      NotDefined(Init(lines), x);
    }
  }

  /** The pass as a whole: the lines that define constants go, the others stay in order, and of these each operand that names a
      constant or a port becomes its address; all other operands are left for the locals. */
  lemma NamesAreAddresses(lines: seq<Line>, i: nat)
    requires i < |lines| && !lines[i].Const?
    ensures |ConstsBuilt(lines).0| == Place(lines, |lines|) && Place(lines, i) < |ConstsBuilt(lines).0|
    ensures var r := ConstsBuilt(lines).0[Place(lines, i)];
            && (!(lines[i].Ins? && lines[i].arg.VarRef?) ==> r == lines[i])
            && (lines[i].Ins? && lines[i].arg.VarRef? ==>
                  && (forall address: nat :: StandsFor(lines, lines[i].arg.name, address) ==> r == Ins(lines[i].op, Num(address)))
                  && ((forall address: nat :: !StandsFor(lines, lines[i].arg.name, address)) ==> r == lines[i]))
  {
    hide StandsFor, Table, WithoutConsts;
    KeptInPlace(lines, i);
    if lines[i].Ins? && lines[i].arg.VarRef? {
      TableMeans(lines, lines[i].arg.name);
    }
  }

  // ----- ports -----

  datatype Register = DDRB | PORTB | PINB

  /** `map_ports` of the VM. */
  const BANK: seq<Register> := [DDRB, PORTB, PINB]

  function NameOf(r: Register): string {
    match r case DDRB => "ddrb" case PORTB => "portb" case PINB => "pinb"
  }

  /** Unless a constant hides it, the name of a register is replaced by the address at which the VM has that register. */
  lemma PortsAgree(lines: seq<Line>, i: nat, r: Register)
    requires i < |lines| && lines[i].Ins? && lines[i].arg == VarRef(NameOf(r))
    requires forall c: nat :: !Defines(lines, c, NameOf(r))
    ensures Place(lines, i) < |ConstsBuilt(lines).0| && |BANK| == PORT_COUNT
    ensures var line := ConstsBuilt(lines).0[Place(lines, i)];
            line.Ins? && line.op == lines[i].op && line.arg.Num? && 0 <= line.arg.v < |BANK| && BANK[line.arg.v] == r
  {
    hide ConstsBuilt;
    NamesAreAddresses(lines, i);
    var address := match r case DDRB => 0 case PORTB => 1 case PINB => 2;
    assert StandsFor(lines, NameOf(r), address);
  }
}
