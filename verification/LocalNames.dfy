/** What `build_local_variables` makes of a program, said line by line: which programs it accepts, and which offset
    stands for each name. */
module LocalNames {
  import opened Isa
  import opened Assembler
  import opened Locals

  /** The operand is a variable that is still to be replaced. */
  predicate Names(line: Line) { line.Ins? && line.arg.VarRef? }

  /** Line `i` is in the function that starts at line `f`. */
  predicate Inside(lines: seq<Line>, f: nat, i: nat) {
    f < i <= |lines| && lines[f].Fn? && forall j :: f < j < i ==> !lines[j].Fn?
  }

  /** Names in line `i` belong to function `f`: the one it is in, or, before any function, the last of the program. */
  predicate Governs(lines: seq<Line>, f: nat, i: nat) {
    Inside(lines, f, i)
    || (i <= f && Inside(lines, f, |lines|) && forall j :: 0 <= j < i && j < |lines| ==> !lines[j].Fn?)
  }

  /** Line `k` of function `g` allocates the variable with this key. */
  predicate Declares(lines: seq<Line>, g: nat, k: nat, key: string) {
    && Inside(lines, g, k) && k < |lines| && IsAlloc(lines[k])
    && VariableName(lines[k].arg).Some? && Key(lines[g].name, VariableName(lines[k].arg).value) == key
  }

  /** The ALLOC_LOCAL in line `k` is accepted: it follows a line with a number, is in a function, and names a
      variable whose key no line before it declares. */
  ghost predicate Allocatable(lines: seq<Line>, k: nat)
    requires k < |lines| && IsAlloc(lines[k])
  {
    && k > 0 && lines[k - 1].Ins? && lines[k - 1].arg.Num?
    && VariableName(lines[k].arg).Some?
    && exists g: nat :: Inside(lines, g, k)
         && forall h: nat, j: nat :: j < k ==> !Declares(lines, h, j, Key(lines[g].name, VariableName(lines[k].arg).value))
  }

  /** Some variable has the key that the name in line `i` stands for. */
  ghost predicate Resolvable(lines: seq<Line>, i: nat)
    requires i < |lines| && Names(lines[i])
  {
    exists f: nat, g: nat, k: nat :: Governs(lines, f, i) && Declares(lines, g, k, Key(lines[f].name, lines[i].arg.name))
  }

  /** `line` is line `i` with the offset of its variable: the bytes allocated before it in the function that declares it. */
  ghost predicate Resolved(lines: seq<Line>, i: nat, line: Line)
    requires i < |lines| && Names(lines[i])
  {
    forall f: nat, g: nat, k: nat ::
      Governs(lines, f, i) && Declares(lines, g, k, Key(lines[f].name, lines[i].arg.name)) ==>
        line == Ins(lines[i].op, Num(OffsetAt(lines, g, k)))
  }

  // ----- the first loop -----

  lemma InsideUnique(lines: seq<Line>, f: nat, g: nat, i: nat)
    requires Inside(lines, f, i) && Inside(lines, g, i)
    ensures f == g
  {
  }

  lemma InsideBefore(lines: seq<Line>, i: nat)
    requires 0 < i <= |lines| && !lines[i - 1].Fn?
    ensures forall f: nat {:trigger Inside(lines, f, i)} {:trigger Inside(lines, f, i - 1)} ::
              Inside(lines, f, i) <==> Inside(lines, f, i - 1)
  {
  }

  lemma {:induction false} Opened(lines: seq<Line>, i: nat)
    requires i <= |lines| && Allocated(lines, i).Ok?
    ensures Allocated(lines, i).value.prefix.Some? <==> exists f: nat :: Inside(lines, f, i)
    ensures forall f: nat :: Inside(lines, f, i) ==> Allocated(lines, i).value.prefix == Some(lines[f].name)
    decreases i
  {
    if i > 0 {
      Opened(lines, i - 1);
      if lines[i - 1].Fn? {
        assert Inside(lines, i - 1, i);
      } else {
        InsideBefore(lines, i);
      }
    }
  }

  /** The table holds exactly the declared keys, each with the bytes allocated before it. */
  lemma {:induction false} TableIs(lines: seq<Line>, i: nat, key: string)
    requires i <= |lines| && Allocated(lines, i).Ok?
    ensures key in Allocated(lines, i).value.table <==> exists g: nat, k: nat :: k < i && Declares(lines, g, k, key)
    ensures forall g: nat, k: nat :: k < i && Declares(lines, g, k, key) ==>
              key in Allocated(lines, i).value.table && Allocated(lines, i).value.table[key] == OffsetAt(lines, g, k)
    decreases i
  {
    hide OffsetAt, VariableName, SizeBefore, Key;
    if i > 0 {
      TableIs(lines, i - 1, key);
      if IsAlloc(lines[i - 1]) {
        Opened(lines, i - 1);
        var f: nat :| Inside(lines, f, i - 1);
        StateAt(lines, f, i - 1);
        var k := i - 1;
        forall g: nat | Inside(lines, g, k) ensures g == f { InsideUnique(lines, f, g, k); }
        if Key(lines[f].name, VariableName(lines[i - 1].arg).value) == key { assert Declares(lines, f, i - 1, key); }
      }
    }
  }

  /** The first loop accepts exactly the programs whose ALLOC_LOCALs are all acceptable. */
  lemma {:induction false} AllocatesIff(lines: seq<Line>, i: nat)
    requires i <= |lines|
    ensures Allocated(lines, i).Ok? <==> forall k :: 0 <= k < i && IsAlloc(lines[k]) ==> Allocatable(lines, k)
    decreases i
  {
    hide VariableName, Key, Allocatable;
    if i > 0 {
      AllocatesIff(lines, i - 1);
      if Allocated(lines, i - 1).Ok? && IsAlloc(lines[i - 1]) {
        AcceptsIff(lines, i - 1);
      }
    }
  }

  lemma AcceptsIff(lines: seq<Line>, k: nat)
    requires k < |lines| && IsAlloc(lines[k]) && Allocated(lines, k).Ok?
    ensures Allocated(lines, k + 1).Ok? <==> Allocatable(lines, k)
  {
    hide VariableName, Key, Declares;
    Opened(lines, k);
    if VariableName(lines[k].arg).Some? && exists f: nat :: Inside(lines, f, k) {
      var f: nat :| Inside(lines, f, k);
      TableIs(lines, k, Key(lines[f].name, VariableName(lines[k].arg).value));
      forall g: nat | Inside(lines, g, k) ensures g == f { InsideUnique(lines, f, g, k); }
    }
  }

  // ----- the second loop -----

  lemma {:induction false} PrefixIs(lines: seq<Line>, i: nat, initial: Option<string>)
    requires i <= |lines|
    ensures (exists f: nat :: Inside(lines, f, i)) || PrefixAt(lines, i, initial) == initial
    ensures forall f: nat :: Inside(lines, f, i) ==> PrefixAt(lines, i, initial) == Some(lines[f].name)
    decreases i
  {
    if i > 0 {
      PrefixIs(lines, i - 1, initial);
      if lines[i - 1].Fn? {
        assert Inside(lines, i - 1, i);
      } else {
        InsideBefore(lines, i);
      }
    }
  }

  lemma {:induction false} NoneInside(lines: seq<Line>, i: nat)
    requires i <= |lines|
    ensures (exists f: nat :: Inside(lines, f, i)) <==> exists j :: 0 <= j < i && lines[j].Fn?
    decreases i
  {
    if i > 0 {
      NoneInside(lines, i - 1);
      if lines[i - 1].Fn? {
        assert Inside(lines, i - 1, i);
      } else {
        InsideBefore(lines, i);
      }
    }
  }

  /** The prefix in the second loop is the name of the function that governs the line. */
  lemma PrefixGoverns(lines: seq<Line>, i: nat)
    requires i < |lines| && Allocated(lines, |lines|).Ok?
    ensures var prefix := PrefixAt(lines, i, Allocated(lines, |lines|).value.prefix);
            && (prefix.Some? <==> exists f: nat :: Governs(lines, f, i))
            && forall f: nat :: Governs(lines, f, i) ==> prefix == Some(lines[f].name)
  {
    hide Inside;
    var last := Allocated(lines, |lines|).value.prefix;
    PrefixIs(lines, i, last);
    Opened(lines, |lines|);
    NoneInside(lines, i);
    if exists f: nat :: Inside(lines, f, i) {
      var f: nat :| Inside(lines, f, i);
      assert Governs(lines, f, i);
      forall g: nat | Governs(lines, g, i) ensures Inside(lines, g, i) { InsideNot(lines, f, i); }
    } else if last.Some? {
      var f: nat :| Inside(lines, f, |lines|);
      if f < i { InsideNot(lines, f, |lines|); }
      assert Governs(lines, f, i);
    }
  }

  lemma InsideNot(lines: seq<Line>, f: nat, i: nat)
    requires Inside(lines, f, i)
    ensures f < |lines| && f < i && lines[f].Fn?
  {
  }

  lemma {:induction false} LocatedEach(lines: seq<Line>, i: nat, st: Alloc)
    requires i <= |lines|
    ensures LocatedUpTo(lines, i, st).Ok?
            <==> forall j :: 0 <= j < i ==> Located(lines[j], PrefixAt(lines, j, st.prefix), st.table).Ok?
    ensures LocatedUpTo(lines, i, st).Ok? ==>
              && |LocatedUpTo(lines, i, st).value| == i
              && forall j :: 0 <= j < i ==>
                   Located(lines[j], PrefixAt(lines, j, st.prefix), st.table) == Ok(LocatedUpTo(lines, i, st).value[j])
    decreases i
  {
    hide Located, PrefixAt;
    if i > 0 {
      LocatedEach(lines, i - 1, st);
    }
  }

  /** One line of the second loop. */
  lemma LineLocated(lines: seq<Line>, i: nat)
    requires i < |lines| && Allocated(lines, |lines|).Ok?
    ensures var st := Allocated(lines, |lines|).value;
            var r := Located(lines[i], PrefixAt(lines, i, st.prefix), st.table);
            && (!Names(lines[i]) ==> r == Ok(lines[i]))
            && (Names(lines[i]) ==> (r.Ok? <==> Resolvable(lines, i)))
            && (Names(lines[i]) && r.Ok? ==> Resolved(lines, i, r.value))
  {
    hide OffsetAt, VariableName, Key, PrefixAt, Governs, Allocated, Inside;
    if Names(lines[i]) {
      PrefixGoverns(lines, i);
      var st := Allocated(lines, |lines|).value;
      var prefix := PrefixAt(lines, i, st.prefix);
      if prefix.Some? {
        TableIs(lines, |lines|, Key(prefix.value, lines[i].arg.name));
      }
    }
  }

  /** The pass as a whole. It succeeds if and only if every ALLOC_LOCAL is acceptable and every name is resolvable. Then
      each name is replaced by the number of bytes that the function which declares the variable allocated before it, and
      all other lines stay as they are. */
  lemma NamesAreOffsets(lines: seq<Line>)
    ensures LocalsBuilt(lines).Ok?
            <==> && (forall k :: 0 <= k < |lines| && IsAlloc(lines[k]) ==> Allocatable(lines, k))
                 && (forall i :: 0 <= i < |lines| && Names(lines[i]) ==> Resolvable(lines, i))
    ensures LocalsBuilt(lines).Ok? ==>
              && |LocalsBuilt(lines).value| == |lines|
              && (forall i :: 0 <= i < |lines| && !Names(lines[i]) ==> LocalsBuilt(lines).value[i] == lines[i])
              && (forall i :: 0 <= i < |lines| && Names(lines[i]) ==> Resolved(lines, i, LocalsBuilt(lines).value[i]))
  {
    hide PrefixAt, Allocated, Allocatable, Resolvable, Resolved, Located, LocatedUpTo;
    AllocatesIff(lines, |lines|);
    if Allocated(lines, |lines|).Ok? {
      var st := Allocated(lines, |lines|).value;
      LocatedEach(lines, |lines|, st);
      forall i | 0 <= i < |lines|
        ensures var r := Located(lines[i], PrefixAt(lines, i, st.prefix), st.table);
                && (!Names(lines[i]) ==> r == Ok(lines[i]))
                && (Names(lines[i]) ==> (r.Ok? <==> Resolvable(lines, i)))
                && (Names(lines[i]) && r.Ok? ==> Resolved(lines, i, r.value))
      {
        LineLocated(lines, i);
      }
    }
  }

  /** Bytes are counted by the operands of the lines before the ALLOC_LOCALs. */
  lemma OffsetCounts(lines: seq<Line>, f: nat, k: nat)
    requires Inside(lines, f, k) && k < |lines| && Allocated(lines, |lines|).Ok?
    ensures OffsetAt(lines, f, f + 1) == 0
    ensures OffsetAt(lines, f, k + 1)
            == OffsetAt(lines, f, k) + if IsAlloc(lines[k]) && lines[k - 1].Ins? && lines[k - 1].arg.Num? then lines[k - 1].arg.v else 0
    ensures IsAlloc(lines[k]) ==> lines[k - 1].Ins? && lines[k - 1].arg.Num?
  {
    AllocatesIff(lines, |lines|);
  }

  /** A variable is replaced by its offset in its own function. */
  lemma LocalIsOffset(lines: seq<Line>, f: nat, k: nat, i: nat)
    requires LocalsBuilt(lines).Ok? && LocalOf(lines, f, k) && i < |lines| && Inside(lines, f, i)
    requires lines[i].Ins? && lines[i].arg == lines[k].arg
    ensures i < |LocalsBuilt(lines).value| && LocalsBuilt(lines).value[i] == Ins(lines[i].op, Num(OffsetAt(lines, f, k)))
  {
    hide OffsetAt, Key, Allocated, LocatedUpTo;
    NamesAreOffsets(lines);
    assert Governs(lines, f, i);
    assert Declares(lines, f, k, Key(lines[f].name, lines[i].arg.name));
  }

  // ----- keys of different functions -----

  /** Function and variable are joined by an underscore, so a name can be found in another function. Here `$b_c` in
      function `a` is variable `c` of function `a_b`, and the program compiles although `a` has no variable. */
  lemma OtherFunctionsVariable(op: Op, size: int)
    requires !op.AllocLocal?
    ensures var lines := Joined(op, size);
            LocalsBuilt(lines).Ok? && |LocalsBuilt(lines).value| == 5 && LocalsBuilt(lines).value[4] == Ins(op, Num(0))
  {
    hide LocalsBuilt, Key;
    var lines := Joined(op, size);
    assert Key("a_b", "c") == Key("a", "b_c") by { KeysMeet(); }
    assert Inside(lines, 0, 2);
    assert Allocatable(lines, 2);
    assert Governs(lines, 0, 2) && Declares(lines, 0, 2, Key("a_b", "c"));
    assert Resolvable(lines, 2);
    assert Governs(lines, 3, 4) && Declares(lines, 0, 2, Key("a", "b_c"));
    assert Resolvable(lines, 4);
    NamesAreOffsets(lines);
    assert OffsetAt(lines, 0, 2) == 0;
    assert Resolved(lines, 4, LocalsBuilt(lines).value[4]);
  }

  /** It cannot happen if the names of functions have no underscore. */
  lemma KeysOfFunctions(f: string, x: string, g: string, y: string)
    requires '_' !in f && '_' !in g && Key(f, x) == Key(g, y)
    ensures f == g && x == y
  {
    NotLonger(f, x, g, y);
    NotLonger(g, y, f, x);
    var key := Key(f, x);
    assert f == key[..|f|] && g == key[..|g|] && x == key[|f| + 1..] && y == key[|g| + 1..];
  }

  lemma NotLonger(f: string, x: string, g: string, y: string)
    requires '_' !in f && Key(f, x) == Key(g, y)
    ensures |f| <= |g|
  {
    hide Key;
    Bar(g, y);
    if |g| < |f| { NoBarBefore(f, x, |g|); }
  }

  lemma Bar(f: string, x: string)
    ensures |f| < |Key(f, x)| && Key(f, x)[|f|] == '_'
  {
  }

  lemma NoBarBefore(f: string, x: string, n: nat)
    requires '_' !in f && n < |f|
    ensures n < |Key(f, x)| && Key(f, x)[n] != '_'
  {
    assert Key(f, x)[n] == f[n];
  }

  /** Then each name stands for a variable of that name in a function of that name. */
  lemma NamesTheirOwn(lines: seq<Line>, f: nat, g: nat, k: nat, x: string)
    requires f < |lines| && lines[f].Fn? && Declares(lines, g, k, Key(lines[f].name, x))
    requires forall j :: 0 <= j < |lines| && lines[j].Fn? ==> '_' !in lines[j].name
    ensures lines[g].name == lines[f].name && VariableName(lines[k].arg) == Some(x)
  {
    hide Key, VariableName;
    KeysOfFunctions(lines[f].name, x, lines[g].name, VariableName(lines[k].arg).value);
  }

  function Joined(op: Op, size: int): seq<Line> {
    [Fn("a_b"), Ins(PushLU16, Num(size)), Ins(AllocLocal, VarRef("c")), Fn("a"), Ins(op, VarRef("b_c"))]
  }

  lemma KeysMeet()
    ensures Key("a_b", "c") == Key("a", "b_c")
  {
    assert "a_b" + "_" + "c" == "a_b_c" == "a" + "_" + "b_c";
  }
}
