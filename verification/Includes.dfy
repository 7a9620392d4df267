/** `process_includes`: textual inclusion, each path at most once. */
module Includes {
  import opened Assembler

  type Files = map<string, seq<Line>>

  /** What one file expands to, and the paths included so far, in first-encounter order. */
  datatype Expansion = Expansion(lines: seq<Line>, included: seq<string>)

  /** Paths of `files` not yet included. */
  function Pending(files: Files, included: seq<string>): set<string> {
    files.Keys - (set p | p in included)
  }

  lemma PendingShrinks(files: Files, included: seq<string>, path: string)
    requires path in files && path !in included
    ensures Pending(files, included + [path]) < Pending(files, included)
  {
    assert path in Pending(files, included);
  }

  lemma PendingMonotone(files: Files, a: seq<string>, b: seq<string>)
    requires a <= b
    ensures Pending(files, b) <= Pending(files, a)
  {
  }

  /** The expansion of `lines`; a file that cannot be opened is an exception. The measure is the number
      of files not yet included, then the lines left: it terminates on cyclic includes too. */
  function Expanded(files: Files, dir: string, lines: seq<Line>, included: seq<string>): (r: Result<Expansion>)
    ensures r.Ok? ==> included <= r.value.included
    decreases |Pending(files, included)|, |lines|
  {
    if lines == [] then Ok(Expansion([], included))
    else
      var first :- ExpandedLine(files, dir, lines[0], included, lines);
      PendingMonotone(files, included, first.included);
      SmallerSet(Pending(files, first.included), Pending(files, included));
      var rest :- Expanded(files, dir, lines[1..], first.included);
      Ok(Expansion(first.lines + rest.lines, rest.included))
  }

  /** One line: an include of a new file is replaced by its expansion, one seen before by nothing. */
  function ExpandedLine(files: Files, dir: string, line: Line, included: seq<string>, ghost whole: seq<Line>): (r: Result<Expansion>)
    requires whole != []
    ensures r.Ok? ==> included <= r.value.included
    decreases |Pending(files, included)|, |whole|, 0
  {
    if !line.Include? then Ok(Expansion([line], included))
    else
      var path := dir + "/" + line.path;
      if path in included then Ok(Expansion([], included))
      else if path !in files then Crash
      else
        PendingShrinks(files, included, path);
        SmallerProperSet(Pending(files, included + [path]), Pending(files, included));
        Expanded(files, dir, files[path], included + [path])
  }

  lemma {:induction false} SmallerSet(a: set<string>, b: set<string>)
    requires a <= b
    ensures |a| <= |b|
  {
    if a != {} {
      var x :| x in a;
      SmallerSet(a - {x}, b - {x});
    }
  }

  lemma SmallerProperSet(a: set<string>, b: set<string>)
    requires a < b
    ensures |a| < |b|
  {
    var x :| x in b && x !in a;
    SmallerSet(a, b - {x});
  }

  /** The loop of `process_includes`; the set of included files is shared by the recursive calls. */
  method ProcessIncludes(files: Files, dir: string, lines: seq<Line>, includedFiles: seq<string>)
    returns (processed: seq<Line>, included: seq<string>, failed: bool)
    ensures match Expanded(files, dir, lines, includedFiles)
            case Ok(e) => !failed && processed == e.lines && included == e.included
            case Crash => failed
    decreases |Pending(files, includedFiles)|
  {
    processed, included, failed := [], includedFiles, false;
    assert lines[0..] == lines;
    ContinuesStart(Expanded(files, dir, lines, includedFiles));
    for i := 0 to |lines|
      invariant includedFiles <= included
      invariant Continues(Expanded(files, dir, lines, includedFiles), processed, Expanded(files, dir, lines[i..], included))
    {
      var line := lines[i];
      assert processed + [] == processed;
      ContinuesStep(files, dir, lines, i, Expanded(files, dir, lines, includedFiles), processed, included);
      if line.Include? {
        var path := dir + "/" + line.path;
        if path !in included {
          if path !in files { failed := true; return; }
          PendingShrinks(files, included, path);
          PendingMonotone(files, includedFiles, included);
          SmallerProperSet(Pending(files, included + [path]), Pending(files, includedFiles));
          var included', inner, bad;
          inner, included', bad := ProcessIncludes(files, dir, files[path], included + [path]);
          if bad { failed := true; return; }
          processed, included := processed + inner, included';
        }
      } else {
        processed := processed + [line];
      }
    }
  }

  lemma ContinuesStart(whole: Result<Expansion>)
    ensures Continues(whole, [], whole)
  {
    if whole.Ok? {
      assert [] + whole.value.lines == whole.value.lines;
    }
  }

  lemma ContinuesStep(files: Files, dir: string, lines: seq<Line>, i: nat, whole: Result<Expansion>,
                      processed: seq<Line>, included: seq<string>)
    requires i < |lines| && Continues(whole, processed, Expanded(files, dir, lines[i..], included))
    ensures match ExpandedLine(files, dir, lines[i], included, lines[i..])
            case Ok(e) => Continues(whole, processed + e.lines, Expanded(files, dir, lines[i + 1..], e.included))
            case Crash => whole.Crash?
  {
    assert lines[i..][0] == lines[i] && lines[i..][1..] == lines[i + 1..];
    var first := ExpandedLine(files, dir, lines[i], included, lines[i..]);
    if first.Ok? {
      var rest := Expanded(files, dir, lines[i + 1..], first.value.included);
      if rest.Ok? {
        assert processed + (first.value.lines + rest.value.lines) == processed + first.value.lines + rest.value.lines;
      }
    }
  }

  /** The whole expansion is what was processed followed by the expansion of what is left. */
  ghost predicate Continues(whole: Result<Expansion>, processed: seq<Line>, left: Result<Expansion>) {
    match left
    case Ok(e) => whole == Ok(Expansion(processed + e.lines, e.included))
    case Crash => whole.Crash?
  }

  // ----- what an expansion is -----

  predicate NoIncludes(lines: seq<Line>) {
    forall i :: 0 <= i < |lines| ==> !lines[i].Include?
  }

  predicate Distinct(paths: seq<string>) {
    forall i, j :: 0 <= i < j < |paths| ==> paths[i] != paths[j]
  }

  /** No include line is left; `included` grew by files, none of them twice. */
  predicate Flat(files: Files, included: seq<string>, e: Expansion) {
    NoIncludes(e.lines) && Distinct(e.included) && included <= e.included
    && forall i :: |included| <= i < |e.included| ==> e.included[i] in files
  }

  lemma FlatAppend(files: Files, included: seq<string>, a: Expansion, b: Expansion)
    requires Flat(files, included, a) && Flat(files, a.included, b)
    ensures Flat(files, included, Expansion(a.lines + b.lines, b.included))
  {
  }

  /** On any finite set of files the expansion leaves no include line, and no path is included twice. */
  lemma {:induction false} ExpansionIsFlat(files: Files, dir: string, lines: seq<Line>, included: seq<string>)
    requires Distinct(included) && Expanded(files, dir, lines, included).Ok?
    ensures Flat(files, included, Expanded(files, dir, lines, included).value)
    decreases |Pending(files, included)|, |lines|
  {
    if lines != [] {
      hide Flat, Pending;
      LineIsFlat(files, dir, lines[0], included, lines);
      var first := ExpandedLine(files, dir, lines[0], included, lines).value;
      FlatDistinct(files, included, first);
      PendingMonotone(files, included, first.included);
      SmallerSet(Pending(files, first.included), Pending(files, included));
      ExpansionIsFlat(files, dir, lines[1..], first.included);
      FlatAppend(files, included, first, Expanded(files, dir, lines[1..], first.included).value);
    }
  }

  lemma FlatDistinct(files: Files, included: seq<string>, e: Expansion)
    requires Flat(files, included, e)
    ensures Distinct(e.included)
  {
  }

  lemma {:induction false} LineIsFlat(files: Files, dir: string, line: Line, included: seq<string>, whole: seq<Line>)
    requires whole != [] && Distinct(included) && ExpandedLine(files, dir, line, included, whole).Ok?
    ensures Flat(files, included, ExpandedLine(files, dir, line, included, whole).value)
    decreases |Pending(files, included)|, |whole|, 0
  {
    var path := if line.Include? then dir + "/" + line.path else "";
    if line.Include? && path !in included {
      PendingShrinks(files, included, path);
      SmallerProperSet(Pending(files, included + [path]), Pending(files, included));
      ExpansionIsFlat(files, dir, files[path], included + [path]);
      assert (included + [path])[|included|] == path;
    }
  }

  function OwnLines(lines: seq<Line>): multiset<Line> {
    if lines == [] then multiset{}
    else OwnLine(lines[0]) + OwnLines(lines[1..])
  }

  /** The lines that the files `paths` contribute. */
  function Contributed(files: Files, paths: seq<string>): multiset<Line> {
    if paths == [] then multiset{}
    else (if paths[0] in files then OwnLines(files[paths[0]]) else multiset{}) + Contributed(files, paths[1..])
  }

  lemma {:induction false} ContributedAppend(files: Files, a: seq<string>, b: seq<string>)
    ensures Contributed(files, a + b) == Contributed(files, a) + Contributed(files, b)
  {
    if a == [] {
      assert a + b == b;
    } else {
      assert (a + b)[0] == a[0] && (a + b)[1..] == a[1..] + b;
      ContributedAppend(files, a[1..], b);
    }
  }

  function OwnLine(line: Line): multiset<Line> { if line.Include? then multiset{} else multiset{line} }

  /** `e` consists of the lines `own` and what the newly included files contribute. */
  ghost predicate Conserved(files: Files, own: multiset<Line>, included: seq<string>, e: Expansion) {
    included <= e.included && multiset(e.lines) == own + Contributed(files, e.included[|included|..])
  }

  lemma ConservedAppend(files: Files, x: multiset<Line>, y: multiset<Line>, included: seq<string>, a: Expansion, b: Expansion)
    requires Conserved(files, x, included, a) && Conserved(files, y, a.included, b)
    ensures Conserved(files, x + y, included, Expansion(a.lines + b.lines, b.included))
  {
    hide Contributed;
    var p, q := a.included[|included|..], b.included[|a.included|..];
    ContributedAppend(files, p, q);
    assert b.included[|included|..] == p + q;
    assert multiset(a.lines + b.lines) == multiset(a.lines) + multiset(b.lines);
  }

  /** No line is lost or duplicated: the expansion consists of the program's own lines and, once for
      every path included on the way, that file's own lines. */
  lemma {:induction false} ExpansionConserves(files: Files, dir: string, lines: seq<Line>, included: seq<string>)
    requires Expanded(files, dir, lines, included).Ok?
    ensures Conserved(files, OwnLines(lines), included, Expanded(files, dir, lines, included).value)
    decreases |Pending(files, included)|, |lines|
  {
    hide Pending, Conserved;
    if lines != [] {
      var first := ExpandedLine(files, dir, lines[0], included, lines).value;
      LineConserves(files, dir, lines[0], included, lines);
      PendingMonotone(files, included, first.included);
      SmallerSet(Pending(files, first.included), Pending(files, included));
      ExpansionConserves(files, dir, lines[1..], first.included);
      ConservedAppend(files, OwnLine(lines[0]), OwnLines(lines[1..]), included, first,
                      Expanded(files, dir, lines[1..], first.included).value);
    } else {
      NothingConserved(files, multiset{}, included, []);
    }
  }

  lemma NothingConserved(files: Files, own: multiset<Line>, included: seq<string>, lines: seq<Line>)
    requires multiset(lines) == own
    ensures Conserved(files, own, included, Expansion(lines, included))
  {
    assert included[|included|..] == [];
  }

  lemma {:induction false} LineConserves(files: Files, dir: string, line: Line, included: seq<string>, whole: seq<Line>)
    requires whole != [] && ExpandedLine(files, dir, line, included, whole).Ok?
    ensures Conserved(files, OwnLine(line), included, ExpandedLine(files, dir, line, included, whole).value)
    decreases |Pending(files, included)|, |whole|, 0
  {
    hide Conserved, OwnLines, Expanded;
    var path := if line.Include? then dir + "/" + line.path else "";
    if line.Include? && path !in included {
      PendingShrinks(files, included, path);
      SmallerProperSet(Pending(files, included + [path]), Pending(files, included));
      ExpansionConserves(files, dir, files[path], included + [path]);
      FileConserves(files, path, included, Expanded(files, dir, files[path], included + [path]).value);
    } else if line.Include? {
      NothingConserved(files, multiset{}, included, []);
    } else {
      NothingConserved(files, multiset{line}, included, [line]);
    }
  }

  lemma FileConserves(files: Files, path: string, included: seq<string>, e: Expansion)
    requires path in files && Conserved(files, OwnLines(files[path]), included + [path], e)
    ensures Conserved(files, multiset{}, included, e)
  {
    hide OwnLines;
    var more := e.included[|included|..];
    assert (included + [path])[|included|] == path;
    assert more[0] == path && more[1..] == e.included[|included| + 1..];
  }

  /** A program without includes is left as it is. */
  lemma {:induction false} NoIncludesUnchanged(files: Files, dir: string, lines: seq<Line>, included: seq<string>)
    requires NoIncludes(lines)
    ensures Expanded(files, dir, lines, included) == Ok(Expansion(lines, included))
    decreases |lines|
  {
    if lines != [] {
      NoIncludesUnchanged(files, dir, lines[1..], included);
      assert [lines[0]] + lines[1..] == lines;
    }
  }

  /** Expansion succeeds when no file names a missing one. */
  lemma {:induction false} ExpansionSucceeds(files: Files, dir: string, lines: seq<Line>, included: seq<string>)
    requires Closed(files, dir, lines)
    requires forall p :: p in files ==> Closed(files, dir, files[p])
    ensures Expanded(files, dir, lines, included).Ok?
    decreases |Pending(files, included)|, |lines|
  {
    if lines != [] {
      if lines[0].Include? && dir + "/" + lines[0].path !in included {
        var path := dir + "/" + lines[0].path;
        PendingShrinks(files, included, path);
        SmallerProperSet(Pending(files, included + [path]), Pending(files, included));
        ExpansionSucceeds(files, dir, files[path], included + [path]);
      }
      var first := ExpandedLine(files, dir, lines[0], included, lines).value;
      PendingMonotone(files, included, first.included);
      SmallerSet(Pending(files, first.included), Pending(files, included));
      ExpansionSucceeds(files, dir, lines[1..], first.included);
    }
  }

  predicate Closed(files: Files, dir: string, lines: seq<Line>) {
    forall i :: 0 <= i < |lines| && lines[i].Include? ==> dir + "/" + lines[i].path in files
  }

  // ----- which files are included -----

  /** An include line of `lines` names `p`. */
  predicate Names(dir: string, lines: seq<Line>, p: string) {
    exists i :: 0 <= i < |lines| && IncludeOf(dir, lines[i], p)
  }

  predicate IncludeOf(dir: string, line: Line, p: string) {
    line.Include? && dir + "/" + line.path == p
  }

  /** `chain` leads from `lines` through include lines: each path is named by the file before it. */
  predicate Chain(files: Files, dir: string, lines: seq<Line>, chain: seq<string>)
    decreases |chain|
  {
    && chain != [] && Names(dir, lines, chain[0])
    && (|chain| > 1 ==> chain[0] in files && Chain(files, dir, files[chain[0]], chain[1..]))
  }

  /** `p` can be reached from `lines` by following include lines; nothing is expanded to find out. */
  ghost predicate Reach(files: Files, dir: string, lines: seq<Line>, p: string) {
    exists chain :: Chain(files, dir, lines, chain) && chain[|chain| - 1] == p
  }

  /** Of the new paths each was reached from `lines`. */
  ghost predicate NewReached(files: Files, dir: string, lines: seq<Line>, included: seq<string>, now: seq<string>) {
    forall p :: p in now && p !in included ==> Reach(files, dir, lines, p)
  }

  /** Everything that `lines` and the newly included files name is included. */
  ghost predicate Settled(files: Files, dir: string, lines: seq<Line>, included: seq<string>, now: seq<string>) {
    && (forall p :: Names(dir, lines, p) ==> p in now)
    && (forall f, p :: f in now && f !in included && f in files && Names(dir, files[f], p) ==> p in now)
  }

  lemma ReachFirst(files: Files, dir: string, line: Line, rest: seq<Line>, path: string)
    requires IncludeOf(dir, line, path)
    ensures Reach(files, dir, [line] + rest, path)
  {
    assert IncludeOf(dir, ([line] + rest)[0], path);
    assert Chain(files, dir, [line] + rest, [path]);
    assert [path][|[path]| - 1] == path;
  }

  /** What is reached from the file that a line includes is reached from the line. */
  lemma ReachThrough(files: Files, dir: string, line: Line, rest: seq<Line>, path: string, p: string)
    requires IncludeOf(dir, line, path) && path in files && Reach(files, dir, files[path], p)
    ensures Reach(files, dir, [line] + rest, p)
  {
    var chain :| Chain(files, dir, files[path], chain) && chain[|chain| - 1] == p;
    var longer := [path] + chain;
    assert IncludeOf(dir, ([line] + rest)[0], path);
    assert longer[1..] == chain && longer[0] == path;
    assert Chain(files, dir, [line] + rest, longer) && longer[|longer| - 1] == p;
  }

  lemma ReachLater(files: Files, dir: string, line: Line, rest: seq<Line>, p: string)
    requires Reach(files, dir, rest, p)
    ensures Reach(files, dir, [line] + rest, p)
  {
    var chain :| Chain(files, dir, rest, chain) && chain[|chain| - 1] == p;
    var i :| 0 <= i < |rest| && IncludeOf(dir, rest[i], chain[0]);
    assert IncludeOf(dir, ([line] + rest)[i + 1], chain[0]);
    assert Chain(files, dir, [line] + rest, chain);
  }

  lemma {:induction false} ExpansionReaches(files: Files, dir: string, lines: seq<Line>, included: seq<string>)
    requires Expanded(files, dir, lines, included).Ok?
    ensures NewReached(files, dir, lines, included, Expanded(files, dir, lines, included).value.included)
    decreases |Pending(files, included)|, |lines|
  {
    hide Pending, Reach;
    if lines != [] {
      var first := ExpandedLine(files, dir, lines[0], included, lines).value;
      LineReaches(files, dir, lines[0], lines[1..], included, lines);
      PendingMonotone(files, included, first.included);
      SmallerSet(Pending(files, first.included), Pending(files, included));
      ExpansionReaches(files, dir, lines[1..], first.included);
      assert [lines[0]] + lines[1..] == lines;
      var now := Expanded(files, dir, lines, included).value.included;
      forall p | p in now && p !in included ensures Reach(files, dir, lines, p)
      {
        if p !in first.included { ReachLater(files, dir, lines[0], lines[1..], p); }
      }
    }
  }

  lemma {:induction false} LineReaches(files: Files, dir: string, line: Line, rest: seq<Line>, included: seq<string>,
                                       whole: seq<Line>)
    requires whole != [] && ExpandedLine(files, dir, line, included, whole).Ok?
    ensures NewReached(files, dir, [line] + rest, included, ExpandedLine(files, dir, line, included, whole).value.included)
    decreases |Pending(files, included)|, |whole|, 0
  {
    hide Reach;
    var path := if line.Include? then dir + "/" + line.path else "";
    if line.Include? && path !in included {
      PendingShrinks(files, included, path);
      SmallerProperSet(Pending(files, included + [path]), Pending(files, included));
      ExpansionReaches(files, dir, files[path], included + [path]);
      var now := ExpandedLine(files, dir, line, included, whole).value.included;
      forall p | p in now && p !in included ensures Reach(files, dir, [line] + rest, p)
      {
        if p == path {
          ReachFirst(files, dir, line, rest, path);
        } else {
          ReachThrough(files, dir, line, rest, path, p);
        }
      }
    }
  }

  lemma {:induction false} ExpansionSettles(files: Files, dir: string, lines: seq<Line>, included: seq<string>)
    requires Expanded(files, dir, lines, included).Ok?
    ensures Settled(files, dir, lines, included, Expanded(files, dir, lines, included).value.included)
    decreases |Pending(files, included)|, |lines|
  {
    hide Pending;
    if lines != [] {
      var first := ExpandedLine(files, dir, lines[0], included, lines).value;
      LineSettles(files, dir, lines[0], included, lines);
      PendingMonotone(files, included, first.included);
      SmallerSet(Pending(files, first.included), Pending(files, included));
      ExpansionSettles(files, dir, lines[1..], first.included);
      SettledAppend(files, dir, lines, included, first.included, Expanded(files, dir, lines, included).value.included);
    }
  }

  lemma SettledAppend(files: Files, dir: string, lines: seq<Line>, included: seq<string>, mid: seq<string>, now: seq<string>)
    requires lines != [] && included <= mid <= now
    requires Settled(files, dir, [lines[0]], included, mid) && Settled(files, dir, lines[1..], mid, now)
    ensures Settled(files, dir, lines, included, now)
  {
    forall p | p in mid ensures p in now
    {
      var k :| 0 <= k < |mid| && mid[k] == p;
      assert now[k] == p;
    }
    forall f, p | f in now && f !in included && f in files && Names(dir, files[f], p) ensures p in now
    {
      if f in mid { assert p in mid; }
    }
    forall p | Names(dir, lines, p) ensures p in now
    {
      var i :| 0 <= i < |lines| && IncludeOf(dir, lines[i], p);
      if i == 0 {
        assert IncludeOf(dir, [lines[0]][0], p) && Names(dir, [lines[0]], p);
      } else {
        assert IncludeOf(dir, lines[1..][i - 1], p) && Names(dir, lines[1..], p);
      }
    }
  }

  lemma {:induction false} LineSettles(files: Files, dir: string, line: Line, included: seq<string>, whole: seq<Line>)
    requires whole != [] && ExpandedLine(files, dir, line, included, whole).Ok?
    ensures Settled(files, dir, [line], included, ExpandedLine(files, dir, line, included, whole).value.included)
    decreases |Pending(files, included)|, |whole|, 0
  {
    var path := if line.Include? then dir + "/" + line.path else "";
    var now := ExpandedLine(files, dir, line, included, whole).value.included;
    if line.Include? && path !in included {
      PendingShrinks(files, included, path);
      SmallerProperSet(Pending(files, included + [path]), Pending(files, included));
      ExpansionSettles(files, dir, files[path], included + [path]);
      assert (included + [path])[|included|] == path && path in now;
    }
  }

  lemma {:induction false} ChainSettled(files: Files, dir: string, lines: seq<Line>, now: seq<string>, chain: seq<string>)
    requires Chain(files, dir, lines, chain)
    requires forall p :: Names(dir, lines, p) ==> p in now
    requires forall f, p :: f in now && f in files && Names(dir, files[f], p) ==> p in now
    ensures chain[|chain| - 1] in now
    decreases |chain|
  {
    if |chain| > 1 {
      ChainSettled(files, dir, files[chain[0]], now, chain[1..]);
    }
  }

  /** A file is included if and only if include lines lead to it. */
  lemma IncludedIsReached(files: Files, dir: string, lines: seq<Line>, p: string)
    requires Expanded(files, dir, lines, []).Ok?
    ensures p in Expanded(files, dir, lines, []).value.included <==> Reach(files, dir, lines, p)
  {
    var now := Expanded(files, dir, lines, []).value.included;
    ExpansionReaches(files, dir, lines, []);
    ExpansionSettles(files, dir, lines, []);
    if Reach(files, dir, lines, p) {
      var chain :| Chain(files, dir, lines, chain) && chain[|chain| - 1] == p;
      ChainSettled(files, dir, lines, now, chain);
    }
  }

  /** Every file that include lines lead to can be opened. */
  ghost predicate AllThere(files: Files, dir: string, lines: seq<Line>) {
    forall p :: Reach(files, dir, lines, p) ==> p in files
  }

  lemma {:induction false} ExpandsIfThere(files: Files, dir: string, lines: seq<Line>, included: seq<string>)
    requires AllThere(files, dir, lines)
    ensures Expanded(files, dir, lines, included).Ok?
    decreases |Pending(files, included)|, |lines|
  {
    hide Reach;
    if lines != [] {
      var line, tail := lines[0], lines[1..];
      assert [line] + tail == lines;
      var path := if line.Include? then dir + "/" + line.path else "";
      if line.Include? && path !in included {
        ReachFirst(files, dir, line, tail, path);
        forall p | Reach(files, dir, files[path], p) ensures p in files { ReachThrough(files, dir, line, tail, path, p); }
        PendingShrinks(files, included, path);
        SmallerProperSet(Pending(files, included + [path]), Pending(files, included));
        ExpandsIfThere(files, dir, files[path], included + [path]);
      }
      forall p | Reach(files, dir, tail, p) ensures p in files { ReachLater(files, dir, line, tail, p); }
      var first := ExpandedLine(files, dir, line, included, lines).value;
      PendingMonotone(files, included, first.included);
      SmallerSet(Pending(files, first.included), Pending(files, included));
      ExpandsIfThere(files, dir, tail, first.included);
    }
  }

  /** Expansion fails if and only if include lines lead to a file that is missing. */
  lemma FailsForMissingFiles(files: Files, dir: string, lines: seq<Line>)
    ensures Expanded(files, dir, lines, []).Ok? <==> AllThere(files, dir, lines)
  {
    if Expanded(files, dir, lines, []).Ok? {
      ExpansionIsFlat(files, dir, lines, []);
      forall p | Reach(files, dir, lines, p) ensures p in files { IncludedIsReached(files, dir, lines, p); }
    } else if AllThere(files, dir, lines) {
      ExpandsIfThere(files, dir, lines, []);
    }
  }

  // ----- the root file -----

  /** `paths` without `p`. */
  function Others(paths: seq<string>, p: string): seq<string> {
    if paths == [] then [] else (if paths[0] == p then [] else [paths[0]]) + Others(paths[1..], p)
  }

  lemma {:induction false} ContributedSplit(files: Files, paths: seq<string>, p: string)
    requires Distinct(paths) && p in files
    ensures p !in Others(paths, p)
    ensures Contributed(files, paths)
            == Contributed(files, Others(paths, p)) + if p in paths then OwnLines(files[p]) else multiset{}
  {
    hide OwnLines;
    if paths != [] {
      var rest := paths[1..];
      assert Distinct(rest) && paths == [paths[0]] + rest;
      ContributedSplit(files, rest, p);
      if paths[0] == p {
        forall i | 0 <= i < |rest| ensures rest[i] != p { assert paths[i + 1] != paths[0]; }
        assert [] + Others(rest, p) == Others(rest, p);
      } else {
        ContributedAppend(files, [paths[0]], Others(rest, p));
        assert [paths[0]][1..] == [];
      }
    }
  }

  /** The root file is not marked as included when its expansion starts: its own lines occur a second time if
      and only if include lines lead from it back to it; every other file's lines occur once if it is reached. */
  lemma RootExpandsAgain(files: Files, dir: string, root: string)
    requires root in files && AllThere(files, dir, files[root])
    ensures Expanded(files, dir, files[root], []).Ok?
    ensures var e := Expanded(files, dir, files[root], []).value;
            && Distinct(e.included)
            && (root in e.included <==> Reach(files, dir, files[root], root))
            && multiset(e.lines)
               == OwnLines(files[root])
                  + (if Reach(files, dir, files[root], root) then OwnLines(files[root]) else multiset{})
                  + Contributed(files, Others(e.included, root))
            && root !in Others(e.included, root)
  {
    FailsForMissingFiles(files, dir, files[root]);
    var e := Expanded(files, dir, files[root], []).value;
    ExpansionIsFlat(files, dir, files[root], []);
    ExpansionConserves(files, dir, files[root], []);
    assert e.included[0..] == e.included;
    IncludedIsReached(files, dir, files[root], root);
    ContributedSplit(files, e.included, root);
  }

  // ----- the order -----

  /** Inclusion as rewriting of the text: the first line left is moved to the output, or an include line is
      replaced, where it stands, by the file it names, or struck out if that file was met before. */
  function Rewritten(files: Files, dir: string, out: seq<Line>, left: seq<Line>, included: seq<string>): Result<Expansion>
    decreases |Pending(files, included)|, |left|
  {
    if left == [] then Ok(Expansion(out, included))
    else if !left[0].Include? then Rewritten(files, dir, out + [left[0]], left[1..], included)
    else
      var path := dir + "/" + left[0].path;
      if path in included then Rewritten(files, dir, out, left[1..], included)
      else if path !in files then Crash
      else
        PendingShrinks(files, included, path);
        SmallerProperSet(Pending(files, included + [path]), Pending(files, included));
        Rewritten(files, dir, out, files[path] + left[1..], included + [path])
  }

  /** The recursion over files is this rewriting: lines come out in textual order, each file where its first
      include line stands, and the included paths are listed in the order of those lines. */
  lemma ExpansionIsRewriting(files: Files, dir: string, lines: seq<Line>, included: seq<string>)
    ensures Expanded(files, dir, lines, included) == Rewritten(files, dir, [], lines, included)
  {
    RewritesPart(files, dir, [], lines, [], included);
    assert lines + [] == lines;
    var e := Expanded(files, dir, lines, included);
    if e.Ok? { assert [] + e.value.lines == e.value.lines; }
  }

  lemma {:induction false} RewritesPart(files: Files, dir: string, out: seq<Line>, lines: seq<Line>, rest: seq<Line>,
                                        included: seq<string>)
    ensures match Expanded(files, dir, lines, included)
            case Ok(e) =>
              Rewritten(files, dir, out, lines + rest, included) == Rewritten(files, dir, out + e.lines, rest, e.included)
            case Crash => Rewritten(files, dir, out, lines + rest, included).Crash?
    decreases |Pending(files, included)|, |lines|
  {
    hide Pending;
    if lines == [] {
      assert [] + rest == rest && out + [] == out;
    } else {
      var line, tail := lines[0], lines[1..];
      var all := lines + rest;
      assert all[0] == line && all[1..] == tail + rest;
      var path := if line.Include? then dir + "/" + line.path else "";
      if line.Include? && path !in included && path in files {
        PendingShrinks(files, included, path);
        SmallerProperSet(Pending(files, included + [path]), Pending(files, included));
        RewritesPart(files, dir, out, files[path], tail + rest, included + [path]);
      }
      var first := ExpandedLine(files, dir, line, included, lines);
      if first.Ok? {
        PendingMonotone(files, included, first.value.included);
        SmallerSet(Pending(files, first.value.included), Pending(files, included));
        RewritesPart(files, dir, out + first.value.lines, tail, rest, first.value.included);
        assert out + [] == out;
        var more := Expanded(files, dir, tail, first.value.included);
        if more.Ok? { assert out + first.value.lines + more.value.lines == out + (first.value.lines + more.value.lines); }
      }
    }
  }

  /** For example, a file that includes itself in its first line is expanded once more. */
  lemma RootExpandsOnceMore(dir: string, root: string, line: Line)
    requires !line.Include?
    ensures var files := map[dir + "/" + root := [Include(root), line]];
            Expanded(files, dir, files[dir + "/" + root], []) == Ok(Expansion([line, line], [dir + "/" + root]))
  {
    var path := dir + "/" + root;
    var lines := [Include(root), line];
    var files := map[path := lines];
    NoIncludesUnchanged(files, dir, [line], [path]);
    assert lines[1..] == [line];
    assert ExpandedLine(files, dir, Include(root), [path], lines) == Ok(Expansion([], [path]));
    assert lines[0] == Include(root) && [] + [line] == [line];
    assert Expanded(files, dir, lines, [path]) == Ok(Expansion([line], [path]));
    assert [] + [path] == [path];
    assert ExpandedLine(files, dir, Include(root), [], lines) == Ok(Expansion([line], [path]));
    assert [line] + [line] == [line, line];
  }
}
