/**
 What the patcher does to arbitrary lines, and what it means for a release file: an update of
 its list of products.
 */
module ReleaseTheorems {
  import opened Common
  import opened Text
  import opened ReleaseFile

  // ---- The patch loop on arbitrary lines ----

  // The version pending for line `n`.
  function PendingAt(lines: seq<string>, operators: Operators, pending: string, n: nat): string
    requires n <= |lines|
  {
    if n == 0 then pending
    else NextPending(lines[n - 1], operators, PendingAt(lines, operators, pending, n - 1))
  }

  // That a line is searched, and `op` is the first operator found on it.
  ghost predicate FindsAt(lines: seq<string>, operators: Operators, pending: string, n: nat, op: string)
    requires n < |lines|
  {
    var found := Found(lines[n], operators, PendingAt(lines, operators, pending, n));
    found.Some? && found.value.0 == op
  }

  lemma {:induction false} PatchByIndex(lines: seq<string>, operators: Operators, pending: string, n: nat)
    requires n <= |lines|
    ensures |Patch(lines, operators, pending).lines| == |lines|
    ensures forall i | 0 <= i < n ::
              Patch(lines, operators, pending).lines[i] == Output(lines[i], PendingAt(lines, operators, pending, i))
    decreases |lines|
  {
    if lines != [] {
      var next := NextPending(lines[0], operators, pending);
      PatchByIndex(lines[1..], operators, next, if n > 0 then n - 1 else 0);
      forall i | 0 <= i < n
        ensures Patch(lines, operators, pending).lines[i] == Output(lines[i], PendingAt(lines, operators, pending, i))
      {
        if i > 0 { PendingShift(lines, operators, pending, i - 1); }
      }
    }
  }

  lemma {:induction false} PendingShift(lines: seq<string>, operators: Operators, pending: string, n: nat)
    requires n < |lines|
    ensures PendingAt(lines, operators, pending, n + 1)
         == PendingAt(lines[1..], operators, NextPending(lines[0], operators, pending), n)
  {
    if n > 0 { PendingShift(lines, operators, pending, n - 1); }
  }

  // The number of lines stays, and only a line right after one with a first match and a
  // version that is not empty can change in more than its newline.
  lemma OnlySuccessorsChange(lines: seq<string>, operators: Operators, i: nat)
    requires i < |lines|
    ensures |Patch(lines, operators, "").lines| == |lines|
    ensures Patch(lines, operators, "").lines[i] != RStrip(lines[i]) ==>
              && i > 0
              && PendingAt(lines, operators, "", i - 1) == ""
              && FirstMatch(lines[i - 1], operators).Some?
              && FirstMatch(lines[i - 1], operators).value.1 != ""
              && Patch(lines, operators, "").lines[i]
                 == RStrip(Substitute(lines[i], FirstMatch(lines[i - 1], operators).value.1))
  {
    PatchByIndex(lines, operators, "", |lines|);
  }

  lemma FindsShift(lines: seq<string>, operators: Operators, pending: string, n: nat, op: string)
    requires n + 1 < |lines|
    ensures FindsAt(lines, operators, pending, n + 1, op)
       <==> FindsAt(lines[1..], operators, NextPending(lines[0], operators, pending), n, op)
  {
    PendingShift(lines, operators, pending, n);
    assert lines[1..][n] == lines[n + 1];
  }

  lemma {:induction false} OpsFrom(lines: seq<string>, operators: Operators, pending: string, op: string)
    ensures op in Patch(lines, operators, pending).ops
       <==> exists i :: 0 <= i < |lines| && FindsAt(lines, operators, pending, i, op)
  {
    if lines != [] {
      var below, next := lines[1..], NextPending(lines[0], operators, pending);
      OpsFrom(below, operators, next, op);
      assert op in FoundOps(lines[0], operators, pending) <==> FindsAt(lines, operators, pending, 0, op);
      if i :| 0 <= i < |below| && FindsAt(below, operators, next, i, op) {
        FindsShift(lines, operators, pending, i, op);
      }
      if i :| 0 < i < |lines| && FindsAt(lines, operators, pending, i, op) {
        FindsShift(lines, operators, pending, i - 1, op);
      }
    }
  }

  // ---- The skip loop on arbitrary lines ----

  predicate SkippingAt(lines: seq<string>, skipOps: seq<string>, n: nat)
    requires n <= |lines|
  {
    n > 0 && !SkippingAt(lines, skipOps, n - 1) && FirstSkip(lines[n - 1], skipOps).Some?
  }

  // A line stays unless it matches or follows a line that did.
  predicate Kept(lines: seq<string>, skipOps: seq<string>, i: nat)
    requires i < |lines|
  {
    !SkippingAt(lines, skipOps, i) && FirstSkip(lines[i], skipOps).None?
  }

  function KeptIndices(lines: seq<string>, skipOps: seq<string>, n: nat): seq<nat>
    requires n <= |lines|
  {
    if n == 0 then []
    else KeptIndices(lines, skipOps, n - 1) + if Kept(lines, skipOps, n - 1) then [n - 1] else []
  }

  function LinesAt(lines: seq<string>, indices: seq<nat>): seq<string>
    requires Within(indices, |lines|)
  {
    seq(|indices|, j requires 0 <= j < |indices| => lines[indices[j]])
  }

  lemma {:induction false} KeptIndicesExact(lines: seq<string>, skipOps: seq<string>, n: nat)
    requires n <= |lines|
    ensures forall i: nat :: i in KeptIndices(lines, skipOps, n) <==> i < n && Kept(lines, skipOps, i)
    ensures forall a, b | 0 <= a < b < |KeptIndices(lines, skipOps, n)| ::
              KeptIndices(lines, skipOps, n)[a] < KeptIndices(lines, skipOps, n)[b]
  {
    if n > 0 {
      KeptIndicesExact(lines, skipOps, n - 1);
      var front := KeptIndices(lines, skipOps, n - 1);
      assert forall a | 0 <= a < |front| :: front[a] in front;
    }
  }

  ghost predicate Within(indices: seq<nat>, n: nat) {
    forall j | 0 <= j < |indices| :: indices[j] < n
  }

  lemma {:induction false} KeptWithin(lines: seq<string>, skipOps: seq<string>, n: nat)
    requires n <= |lines|
    ensures Within(KeptIndices(lines, skipOps, n), n)
  {
    if n > 0 { KeptWithin(lines, skipOps, n - 1); }
  }

  function OwnLine(lines: seq<string>, skipOps: seq<string>, i: nat): seq<string>
    requires i < |lines|
  {
    if Kept(lines, skipOps, i) then [lines[i]] else []
  }

  lemma SkipStep(lines: seq<string>, skipOps: seq<string>, i: nat)
    requires i < |lines|
    ensures Skip(lines[i..], skipOps, SkippingAt(lines, skipOps, i)).lines
         == OwnLine(lines, skipOps, i) + Skip(lines[i + 1..], skipOps, SkippingAt(lines, skipOps, i + 1)).lines
  {
    SkipOfRest(lines, skipOps, i);
  }

  lemma KeptLines(lines: seq<string>, skipOps: seq<string>, i: nat)
    requires i < |lines|
    requires Within(KeptIndices(lines, skipOps, i), |lines|) && Within(KeptIndices(lines, skipOps, i + 1), |lines|)
    ensures LinesAt(lines, KeptIndices(lines, skipOps, i + 1))
         == LinesAt(lines, KeptIndices(lines, skipOps, i)) + OwnLine(lines, skipOps, i)
  {
  }

  lemma Regroup(a: seq<string>, b: seq<string>, c: seq<string>)
    ensures a + (b + c) == (a + b) + c
  {
  }

  lemma {:induction false} SkipPrefix(lines: seq<string>, skipOps: seq<string>, n: nat)
    requires n <= |lines| && Within(KeptIndices(lines, skipOps, n), |lines|)
    ensures Skip(lines, skipOps, false).lines
         == LinesAt(lines, KeptIndices(lines, skipOps, n)) + Skip(lines[n..], skipOps, SkippingAt(lines, skipOps, n)).lines
  {
    if n == 0 {
      assert lines[0..] == lines;
    } else {
      KeptWithin(lines, skipOps, n - 1);
      SkipPrefix(lines, skipOps, n - 1);
      SkipStep(lines, skipOps, n - 1);
      KeptLines(lines, skipOps, n - 1);
      Regroup(LinesAt(lines, KeptIndices(lines, skipOps, n - 1)), OwnLine(lines, skipOps, n - 1),
              Skip(lines[n..], skipOps, SkippingAt(lines, skipOps, n)).lines);
    }
  }

  lemma SkipOfRest(lines: seq<string>, skipOps: seq<string>, i: nat)
    requires i < |lines|
    ensures Skip(lines[i..], skipOps, true) == Skip(lines[i + 1..], skipOps, false)
    ensures FirstSkip(lines[i], skipOps) == None ==>
              Skip(lines[i..], skipOps, false).lines == [lines[i]] + Skip(lines[i + 1..], skipOps, false).lines
    ensures FirstSkip(lines[i], skipOps).Some? ==>
              Skip(lines[i..], skipOps, false).lines == Skip(lines[i + 1..], skipOps, true).lines
  {
    assert lines[i..][0] == lines[i] && lines[i..][1..] == lines[i + 1..];
  }

  // The output is the subsequence of the lines that are kept: each matched line is gone, with
  // its successor, and nothing else.
  lemma SkipKeepsTheRest(lines: seq<string>, skipOps: seq<string>)
    ensures Within(KeptIndices(lines, skipOps, |lines|), |lines|)
    ensures Skip(lines, skipOps, false).lines == LinesAt(lines, KeptIndices(lines, skipOps, |lines|))
    ensures forall i: nat :: i in KeptIndices(lines, skipOps, |lines|) <==> i < |lines| && Kept(lines, skipOps, i)
    ensures forall a, b | 0 <= a < b < |KeptIndices(lines, skipOps, |lines|)| ::
              KeptIndices(lines, skipOps, |lines|)[a] < KeptIndices(lines, skipOps, |lines|)[b]
  {
    KeptIndicesExact(lines, skipOps, |lines|);
    KeptWithin(lines, skipOps, |lines|);
    SkipPrefix(lines, skipOps, |lines|);
    assert lines[|lines|..] == [];
  }

  lemma {:induction false} SkipOpsFrom(lines: seq<string>, skipOps: seq<string>, n: nat, op: string)
    requires n <= |lines|
    ensures op in Skip(lines, skipOps, false).ops <==>
            || (exists i :: 0 <= i < n && !SkippingAt(lines, skipOps, i) && FirstSkip(lines[i], skipOps) == Some(op))
            || op in Skip(lines[n..], skipOps, SkippingAt(lines, skipOps, n)).ops
  {
    if n == 0 {
      assert lines[0..] == lines;
    } else {
      SkipOpsFrom(lines, skipOps, n - 1, op);
      assert lines[n - 1..][0] == lines[n - 1] && lines[n - 1..][1..] == lines[n..];
    }
  }

  // ---- Errors ----

  // The patcher reports exactly the requested operators that were never the first match on a
  // line it searched; skipped operators only once every patch has found its operator.
  lemma ErrorsExact(lines: seq<string>, operators: Operators, skipOps: seq<string>)
    ensures var patched := Patch(lines, operators, "").lines;
            var notPatched := set op | op in NamesOf(operators) && !(exists i :: 0 <= i < |lines| && FindsAt(lines, operators, "", i, op));
            var notSkipped := set op | op in SetOf(skipOps)
              && !(exists i :: 0 <= i < |patched| && !SkippingAt(patched, skipOps, i) && FirstSkip(patched[i], skipOps) == Some(op));
            match Release(lines, operators, skipOps)
            case Err(OperatorsNotPatched(names)) => names == notPatched && names != {}
            case Err(OperatorsNotSkipped(names)) => notPatched == {} && names == notSkipped && names != {}
            case Ok(_) => notPatched == {} && notSkipped == {}
  {
    var patched := Patch(lines, operators, "").lines;
    forall op
      ensures op in Patch(lines, operators, "").ops <==> exists i :: 0 <= i < |lines| && FindsAt(lines, operators, "", i, op)
    {
      OpsFrom(lines, operators, "", op);
    }
    forall op
      ensures op in Skip(patched, skipOps, false).ops <==>
              exists i :: 0 <= i < |patched| && !SkippingAt(patched, skipOps, i) && FirstSkip(patched[i], skipOps) == Some(op)
    {
      SkipOpsFrom(patched, skipOps, |patched|, op);
      assert patched[|patched|..] == [];
    }
  }

  // ---- Release files ----

  datatype Product = Product(name: string, version: string)

  function NameLine(name: string): string {
    "      " + name + ":"
  }

  const VERSION_KEY := "        operatorVersion"

  function VersionLine(version: string): string {
    VERSION_KEY + ": " + version
  }

  function Block(p: Product): seq<string> {
    [NameLine(p.name), VersionLine(p.version)]
  }

  function Blocks(products: seq<Product>): seq<string> {
    if products == [] then []
    else Block(products[0]) + Blocks(products[1..])
  }

  // The lines of a release file: a header, then two lines for each product.
  function Contents(header: seq<string>, products: seq<Product>): seq<string> {
    header + Blocks(products)
  }

  // The lines as read, the last one perhaps without a newline.
  ghost predicate IsRaw(raw: string, line: string) {
    raw == line || raw == line + "\n"
  }

  ghost predicate AreRaw(raws: seq<string>, lines: seq<string>) {
    |raws| == |lines| && forall i | 0 <= i < |lines| :: IsRaw(raws[i], lines[i])
  }

  // ---- The update ----

  function FirstNamed(operators: Operators, name: string): Option<(string, string)> {
    if operators == [] then None
    else if operators[0].0 == name then Some(operators[0])
    else FirstNamed(operators[1..], name)
  }

  // The first version requested for a product wins; an empty one changes nothing.
  function Override(p: Product, operators: Operators): Product {
    match FirstNamed(operators, p.name)
    case None => p
    case Some((_, version)) => if version != "" then p.(version := version) else p
  }

  function Overridden(products: seq<Product>, operators: Operators): seq<Product> {
    if products == [] then [] else [Override(products[0], operators)] + Overridden(products[1..], operators)
  }

  function Remaining(products: seq<Product>, skipOps: seq<string>): seq<Product> {
    if products == [] then []
    else (if products[0].name in skipOps then [] else [products[0]]) + Remaining(products[1..], skipOps)
  }

  predicate HasProduct(products: seq<Product>, name: string) {
    exists i :: 0 <= i < |products| && products[i].name == name
  }

  // ---- What the loops look for ----

  // The version that the first operator found on a product's line asks for; "" for none.
  function FoundVersion(p: Product, operators: Operators): string {
    match FirstMatch(NameLine(p.name), operators)
    case None => ""
    case Some(operator) => operator.1
  }

  function VersionOr(requested: string, version: string): string {
    if requested != "" then requested else version
  }

  function FoundOverride(p: Product, operators: Operators): Product {
    p.(version := VersionOr(FoundVersion(p, operators), p.version))
  }

  function AllFoundOverridden(products: seq<Product>, operators: Operators): seq<Product> {
    if products == [] then []
    else [FoundOverride(products[0], operators)] + AllFoundOverridden(products[1..], operators)
  }

  function NotFound(products: seq<Product>, skipOps: seq<string>): seq<Product> {
    if products == [] then []
    else
      (if FirstSkip(NameLine(products[0].name), skipOps).Some? then [] else [products[0]])
      + NotFound(products[1..], skipOps)
  }

  // That `op` is the first of the operators on the line of some product.
  ghost predicate FindsProduct(products: seq<Product>, operators: Operators, op: string) {
    exists i :: 0 <= i < |products| && FindsOn(products[i], operators, op)
  }

  predicate FindsOn(p: Product, operators: Operators, op: string) {
    var found := FirstMatch(NameLine(p.name), operators);
    found.Some? && found.value.0 == op
  }

  ghost predicate SkipsProduct(products: seq<Product>, skipOps: seq<string>, op: string) {
    exists i :: 0 <= i < |products| && FirstSkip(NameLine(products[i].name), skipOps) == Some(op)
  }

  // ---- Lines as read ----

  lemma {:induction false} ContainsRaw(line: string, op: string)
    requires '\n' !in op
    ensures Contains(line + "\n", op) <==> Contains(line, op)
  {
    var raw := line + "\n";
    assert raw[|line|] == '\n' && raw[..|line|] == line;
    assert |op| > |line| ==> op[|line|] != '\n';
    if line != "" {
      assert raw[1..] == line[1..] + "\n";
      ContainsRaw(line[1..], op);
    } else {
      assert raw[1..] == "";
      assert op != "" ==> op[0] != '\n';
    }
  }

  // `rstrip("\n")` takes off the newlines at the end, and nothing else.
  lemma {:induction false} RStripExact(line: string)
    ensures RStrip(line) <= line && forall i | |RStrip(line)| <= i < |line| :: line[i] == '\n'
    ensures RStrip(line) != "" ==> RStrip(line)[|RStrip(line)| - 1] != '\n'
  {
    if line != "" && line[|line| - 1] == '\n' {
      RStripExact(line[..|line| - 1]);
    }
  }

  lemma RStripRaw(raw: string, line: string)
    requires IsRaw(raw, line) && '\n' !in line
    ensures RStrip(raw) == line
  {
    if raw == line + "\n" {
      assert raw[..|raw| - 1] == line;
    }
  }

  lemma SubstituteRaw(raw: string, version: string, version': string)
    requires IsRaw(raw, VersionLine(version)) && '\n' !in version && '\n' !in version'
    ensures IsRaw(Substitute(raw, version'), VersionLine(version'))
  {
    var line := VersionLine(version);
    VersionKeyPlain();
    var end := if EndsInNewline(raw) then |raw| - 1 else |raw|;
    assert '\n' !in line;
    assert raw[..end] == line;
    IndexAfter(VERSION_KEY, ':', " " + version);
    assert line == VERSION_KEY + [':'] + (" " + version);
    assert line[..|VERSION_KEY|] == VERSION_KEY;
  }

  // `re.sub` on any line: what follows the first colon, if anything does, is replaced up to the
  // end of the line; a line with no such colon is left alone.
  lemma SubstituteExact(head: string, tail: string, end: string, version: string)
    requires ':' !in head && '\n' !in head && '\n' !in tail && end in {"", "\n"}
    ensures tail != "" ==> Substitute(head + ":" + tail + end, version) == head + ": " + version + end
    ensures Substitute(head + ":" + end, version) == head + ":" + end
    ensures Substitute(head + end, version) == head + end
  {
    var line := head + ":" + tail;
    assert line == head + [':'] + tail && '\n' !in line;
    IndexAfter(head, ':', tail);
    assert (line + end)[..|line|] == line && (line + end)[|line|..] == end;
    assert line[..|head|] == head;
    var short := head + ":";
    assert short == head + [':'] + "" && '\n' !in short;
    IndexAfter(head, ':', "");
    assert (short + end)[..|short|] == short;
    assert (head + end)[..|head|] == head;
  }

  lemma VersionKeyPlain()
    ensures ':' !in VERSION_KEY && '\n' !in VERSION_KEY
  {
  }

  ghost predicate OneLineNames(operators: Operators) {
    forall o | o in operators :: '\n' !in o.0
  }

  lemma {:induction false} FirstMatchRaw(raw: string, line: string, operators: Operators)
    requires IsRaw(raw, line) && OneLineNames(operators)
    ensures FirstMatch(raw, operators) == FirstMatch(line, operators)
  {
    if operators != [] {
      ContainsRaw(line, operators[0].0);
      FirstMatchRaw(raw, line, operators[1..]);
    }
  }

  ghost predicate Quiet(line: string, operators: Operators) {
    forall o | o in operators :: !Contains(line, o.0)
  }

  lemma {:induction false} FirstMatchNone(line: string, operators: Operators)
    requires Quiet(line, operators)
    ensures FirstMatch(line, operators) == None
  {
    if operators != [] { FirstMatchNone(line, operators[1..]); }
  }

  lemma {:induction false} FirstMatchIn(line: string, operators: Operators)
    ensures FirstMatch(line, operators).Some? ==> FirstMatch(line, operators).value in operators
  {
    if operators != [] { FirstMatchIn(line, operators[1..]); }
  }

  // ---- Patching a release file ----

  // One header line of the file.
  lemma PatchHeaderLine(raws: seq<string>, line: string, operators: Operators)
    requires raws != [] && IsRaw(raws[0], line) && '\n' !in line
    requires OneLineNames(operators) && Quiet(line, operators)
    ensures var rest := Patch(raws[1..], operators, "");
            Patch(raws, operators, "") == Patched([line] + rest.lines, rest.ops)
  {
    FirstMatchRaw(raws[0], line, operators);
    FirstMatchNone(line, operators);
    RStripRaw(raws[0], line);
  }

  function OpsOn(p: Product, operators: Operators): seq<string> {
    match FirstMatch(NameLine(p.name), operators)
    case None => []
    case Some(operator) => [operator.0]
  }

  // A name line finds the version for the line below it.
  lemma NameLineStep(raw: string, p: Product, operators: Operators)
    requires IsRaw(raw, NameLine(p.name)) && '\n' !in p.name && OneLineNames(operators)
    ensures Output(raw, "") == NameLine(p.name)
    ensures NextPending(raw, operators, "") == FoundVersion(p, operators)
    ensures FoundOps(raw, operators, "") == OpsOn(p, operators)
  {
    FirstMatchRaw(raw, NameLine(p.name), operators);
    RStripRaw(raw, NameLine(p.name));
  }

  lemma VersionLineStep(raw: string, version: string, pending: string, operators: Operators)
    requires IsRaw(raw, VersionLine(version)) && '\n' !in version && '\n' !in pending
    requires OneLineNames(operators) && Quiet(VersionLine(version), operators)
    ensures Output(raw, pending) == VersionLine(VersionOr(pending, version))
    ensures NextPending(raw, operators, pending) == "" && FoundOps(raw, operators, pending) == []
  {
    VersionKeyPlain();
    if pending != "" {
      SubstituteRaw(raw, version, pending);
      RStripRaw(Substitute(raw, pending), VersionLine(pending));
    } else {
      FirstMatchRaw(raw, VersionLine(version), operators);
      FirstMatchNone(VersionLine(version), operators);
      RStripRaw(raw, VersionLine(version));
    }
  }

  lemma PatchTwoLines(raws: seq<string>, operators: Operators, first: string, second: string, pending: string, ops: seq<string>)
    requires |raws| >= 2
    requires Output(raws[0], "") == first && NextPending(raws[0], operators, "") == pending
    requires FoundOps(raws[0], operators, "") == ops
    requires Output(raws[1], pending) == second && NextPending(raws[1], operators, pending) == ""
    requires FoundOps(raws[1], operators, pending) == []
    ensures var rest := Patch(raws[2..], operators, "");
            Patch(raws, operators, "") == Patched([first, second] + rest.lines, ops + rest.ops)
  {
    var below := raws[1..];
    assert below[0] == raws[1] && below[1..] == raws[2..];
    var rest := Patch(raws[2..], operators, "");
    assert Patch(below, operators, pending) == Patched([second] + rest.lines, rest.ops);
    assert [first] + ([second] + rest.lines) == [first, second] + rest.lines;
  }

  // Operators that can be told from newlines and version lines; their names may still occur
  // on the line of any product.
  ghost predicate Legible(p: Product, operators: Operators) {
    && '\n' !in p.name && '\n' !in p.version && Quiet(VersionLine(p.version), operators)
    && OneLineNames(operators) && forall o | o in operators :: '\n' !in o.1
  }

  // One product: its name line finds the version for its version line.
  lemma PatchBlock(raws: seq<string>, p: Product, operators: Operators)
    requires |raws| >= 2 && IsRaw(raws[0], NameLine(p.name)) && IsRaw(raws[1], VersionLine(p.version))
    requires Legible(p, operators)
    ensures var rest := Patch(raws[2..], operators, "");
            Patch(raws, operators, "")
            == Patched(Block(FoundOverride(p, operators)) + rest.lines, OpsOn(p, operators) + rest.ops)
  {
    var pending := FoundVersion(p, operators);
    FirstMatchIn(NameLine(p.name), operators);
    NameLineStep(raws[0], p, operators);
    VersionLineStep(raws[1], p.version, pending, operators);
    PatchTwoLines(raws, operators, NameLine(p.name), VersionLine(VersionOr(pending, p.version)), pending, OpsOn(p, operators));
  }

  lemma {:induction false} PatchBlocks(raws: seq<string>, products: seq<Product>, operators: Operators)
    requires AreRaw(raws, Blocks(products))
    requires forall i | 0 <= i < |products| :: Legible(products[i], operators)
    ensures Patch(raws, operators, "").lines == Blocks(AllFoundOverridden(products, operators))
    ensures forall op :: op in Patch(raws, operators, "").ops <==> FindsProduct(products, operators, op)
    decreases |products|
  {
    if products != [] {
      var p, lines := products[0], Blocks(products);
      assert lines[0] == NameLine(p.name) && lines[1] == VersionLine(p.version) && lines[2..] == Blocks(products[1..]);
      assert IsRaw(raws[0], lines[0]) && IsRaw(raws[1], lines[1]);
      assert Legible(p, operators);
      RestIsRaw(raws, lines, 2);
      PatchBlock(raws, p, operators);
      PatchBlocks(raws[2..], products[1..], operators);
      BlocksBelow(FoundOverride(p, operators), AllFoundOverridden(products[1..], operators));
      forall op
        ensures op in Patch(raws, operators, "").ops <==> FindsProduct(products, operators, op)
      {
        FindsProductStep(products, operators, op);
        assert op in OpsOn(p, operators) <==> FindsOn(p, operators, op);
      }
    }
  }

  lemma RestIsRaw(raws: seq<string>, lines: seq<string>, n: nat)
    requires AreRaw(raws, lines) && n <= |lines|
    ensures AreRaw(raws[n..], lines[n..])
  {
    forall i | 0 <= i < |lines| - n ensures IsRaw(raws[n..][i], lines[n..][i]) {
      assert IsRaw(raws[n + i], lines[n + i]);
    }
  }

  lemma FindsProductStep(products: seq<Product>, operators: Operators, op: string)
    requires products != []
    ensures FindsProduct(products, operators, op) <==>
            FindsOn(products[0], operators, op) || FindsProduct(products[1..], operators, op)
  {
    if i :| 0 < i < |products| && FindsOn(products[i], operators, op) {
      assert FindsOn(products[1..][i - 1], operators, op);
    }
    if i :| 0 <= i < |products| - 1 && FindsOn(products[1..][i], operators, op) {
      assert FindsOn(products[i + 1], operators, op);
    }
  }

  lemma BlocksBelow(p: Product, products: seq<Product>)
    ensures Blocks([p] + products) == Block(p) + Blocks(products)
  {
    assert ([p] + products)[1..] == products;
  }

  lemma ContentsBelow(header: seq<string>, products: seq<Product>)
    requires header != []
    ensures Contents(header, products) == [header[0]] + Contents(header[1..], products)
    ensures Contents(header, products)[1..] == Contents(header[1..], products)
  {
    assert header == [header[0]] + header[1..];
  }

  lemma {:induction false} PatchContents(raws: seq<string>, header: seq<string>, products: seq<Product>, operators: Operators)
    requires AreRaw(raws, Contents(header, products)) && OneLineNames(operators)
    requires forall i | 0 <= i < |header| :: '\n' !in header[i] && Quiet(header[i], operators)
    requires forall i | 0 <= i < |products| :: Legible(products[i], operators)
    ensures Patch(raws, operators, "").lines == Contents(header, AllFoundOverridden(products, operators))
    ensures forall op :: op in Patch(raws, operators, "").ops <==> FindsProduct(products, operators, op)
    decreases |header|
  {
    if header == [] {
      assert Contents(header, products) == Blocks(products);
      assert Contents(header, AllFoundOverridden(products, operators)) == Blocks(AllFoundOverridden(products, operators));
      PatchBlocks(raws, products, operators);
    } else {
      ContentsBelow(header, products);
      assert IsRaw(raws[0], Contents(header, products)[0]);
      RestIsRaw(raws, Contents(header, products), 1);
      PatchHeaderLine(raws, header[0], operators);
      PatchContents(raws[1..], header[1..], products, operators);
      ContentsBelow(header, AllFoundOverridden(products, operators));
    }
  }

  // ---- Skipping products ----

  ghost predicate QuietFor(line: string, skipOps: seq<string>) {
    forall op | op in skipOps :: !Contains(line, op)
  }

  lemma {:induction false} FirstSkipNone(line: string, skipOps: seq<string>)
    requires QuietFor(line, skipOps)
    ensures FirstSkip(line, skipOps) == None
  {
    if skipOps != [] { FirstSkipNone(line, skipOps[1..]); }
  }

  lemma SkipTwoLines(lines: seq<string>, skipOps: seq<string>)
    requires |lines| >= 2 && FirstSkip(lines[1], skipOps) == None
    ensures var rest := Skip(lines[2..], skipOps, false);
            Skip(lines, skipOps, false)
            == match FirstSkip(lines[0], skipOps)
               case Some(op) => Patched(rest.lines, [op] + rest.ops)
               case None => Patched(lines[..2] + rest.lines, rest.ops)
  {
    var below := lines[1..];
    assert below[0] == lines[1] && below[1..] == lines[2..];
    var rest := Skip(lines[2..], skipOps, false);
    if FirstSkip(lines[0], skipOps).None? {
      assert Skip(below, skipOps, false) == Patched([lines[1]] + rest.lines, rest.ops);
      assert [lines[0]] + ([lines[1]] + rest.lines) == lines[..2] + rest.lines;
    }
  }

  lemma SkipBlock(p: Product, below: seq<string>, skipOps: seq<string>)
    requires QuietFor(VersionLine(p.version), skipOps)
    ensures var rest := Skip(below, skipOps, false);
            Skip(Block(p) + below, skipOps, false)
            == match FirstSkip(NameLine(p.name), skipOps)
               case Some(op) => Patched(rest.lines, [op] + rest.ops)
               case None => Patched(Block(p) + rest.lines, rest.ops)
  {
    var lines := Block(p) + below;
    FirstSkipNone(lines[1], skipOps);
    assert lines[..2] == Block(p) && lines[2..] == below;
    SkipTwoLines(lines, skipOps);
  }

  lemma SkipsProductStep(products: seq<Product>, skipOps: seq<string>, op: string)
    requires products != []
    ensures SkipsProduct(products, skipOps, op) <==>
            FirstSkip(NameLine(products[0].name), skipOps) == Some(op) || SkipsProduct(products[1..], skipOps, op)
  {
    if i :| 0 < i < |products| && FirstSkip(NameLine(products[i].name), skipOps) == Some(op) {
      assert FirstSkip(NameLine(products[1..][i - 1].name), skipOps) == Some(op);
    }
    if i :| 0 <= i < |products| - 1 && FirstSkip(NameLine(products[1..][i].name), skipOps) == Some(op) {
      assert FirstSkip(NameLine(products[i + 1].name), skipOps) == Some(op);
    }
  }

  lemma {:induction false} SkipBlocks(products: seq<Product>, skipOps: seq<string>)
    requires forall i | 0 <= i < |products| :: QuietFor(VersionLine(products[i].version), skipOps)
    ensures Skip(Blocks(products), skipOps, false).lines == Blocks(NotFound(products, skipOps))
    ensures forall op :: op in Skip(Blocks(products), skipOps, false).ops <==> SkipsProduct(products, skipOps, op)
  {
    if products != [] {
      var p, rest := products[0], NotFound(products[1..], skipOps);
      BlocksBelow(p, products[1..]);
      assert products == [p] + products[1..];
      SkipBlock(p, Blocks(products[1..]), skipOps);
      SkipBlocks(products[1..], skipOps);
      BlocksBelow(p, rest);
      assert NotFound(products, skipOps) == if FirstSkip(NameLine(p.name), skipOps).Some? then rest else [p] + rest;
      forall op
        ensures op in Skip(Blocks(products), skipOps, false).ops <==> SkipsProduct(products, skipOps, op)
      {
        SkipsProductStep(products, skipOps, op);
      }
    }
  }

  lemma {:induction false} SkipContents(header: seq<string>, products: seq<Product>, skipOps: seq<string>)
    requires forall i | 0 <= i < |header| :: QuietFor(header[i], skipOps)
    requires forall i | 0 <= i < |products| :: QuietFor(VersionLine(products[i].version), skipOps)
    ensures Skip(Contents(header, products), skipOps, false).lines == Contents(header, NotFound(products, skipOps))
    ensures forall op :: op in Skip(Contents(header, products), skipOps, false).ops <==> SkipsProduct(products, skipOps, op)
    decreases |header|
  {
    if header == [] {
      assert Contents(header, products) == Blocks(products);
      assert Contents(header, NotFound(products, skipOps)) == Blocks(NotFound(products, skipOps));
      SkipBlocks(products, skipOps);
    } else {
      ContentsBelow(header, products);
      FirstSkipNone(header[0], skipOps);
      SkipContents(header[1..], products, skipOps);
      ContentsBelow(header, NotFound(products, skipOps));
    }
  }

  // ---- The refinement ----

  lemma {:induction false} FoundOverriddenAt(products: seq<Product>, operators: Operators)
    ensures |AllFoundOverridden(products, operators)| == |products|
    ensures forall i | 0 <= i < |products| ::
              AllFoundOverridden(products, operators)[i] == FoundOverride(products[i], operators)
  {
    if products != [] { FoundOverriddenAt(products[1..], operators); }
  }

  function VersionsOf(products: seq<Product>, operators: Operators): set<string> {
    (set p | p in products :: p.version) + (set o | o in operators :: o.1)
  }

  // A file of this format: no name or version spans lines, and no operator's name occurs in the
  // header or on the line of a version, present or requested.
  ghost predicate Readable(header: seq<string>, products: seq<Product>, operators: Operators, skipOps: seq<string>) {
    && (forall i | 0 <= i < |header| ::
          '\n' !in header[i] && Quiet(header[i], operators) && QuietFor(header[i], skipOps))
    && (forall i | 0 <= i < |products| :: '\n' !in products[i].name)
    && (forall v | v in VersionsOf(products, operators) ::
          '\n' !in v && Quiet(VersionLine(v), operators) && QuietFor(VersionLine(v), skipOps))
    && OneLineNames(operators)
  }

  lemma ReadableToPatch(header: seq<string>, products: seq<Product>, operators: Operators, skipOps: seq<string>)
    requires Readable(header, products, operators, skipOps)
    ensures forall i | 0 <= i < |products| :: Legible(products[i], operators)
  {
    var versions := VersionsOf(products, operators);
    assert forall o | o in operators :: o.1 in versions;
    assert forall i | 0 <= i < |products| :: products[i].version in versions;
  }

  lemma ReadableToSkip(header: seq<string>, products: seq<Product>, operators: Operators, skipOps: seq<string>)
    requires Readable(header, products, operators, skipOps)
    ensures var after := AllFoundOverridden(products, operators);
            forall i | 0 <= i < |after| :: QuietFor(VersionLine(after[i].version), skipOps)
  {
    var versions, after := VersionsOf(products, operators), AllFoundOverridden(products, operators);
    FoundOverriddenAt(products, operators);
    forall i | 0 <= i < |after|
      ensures QuietFor(VersionLine(after[i].version), skipOps)
    {
      FirstMatchIn(NameLine(products[i].name), operators);
      assert products[i].version in versions;
      assert after[i].version in versions;
    }
  }

  lemma OverriddenKeepsLines(products: seq<Product>, operators: Operators, skipOps: seq<string>, op: string)
    ensures SkipsProduct(AllFoundOverridden(products, operators), skipOps, op) <==> SkipsProduct(products, skipOps, op)
  {
    FoundOverriddenAt(products, operators);
    assert forall i | 0 <= i < |products| :: AllFoundOverridden(products, operators)[i].name == products[i].name;
  }

  // What the patcher makes of such a file, wherever on the lines of products the operators'
  // names occur: the first operator found on a line gives the version, and a product is
  // skipped if any skipped operator is found. It is an error if an operator is never found
  // first.
  lemma ReleaseByLines(raws: seq<string>, header: seq<string>, products: seq<Product>, operators: Operators, skipOps: seq<string>)
    requires AreRaw(raws, Contents(header, products)) && Readable(header, products, operators, skipOps)
    ensures var notPatched := set op | op in NamesOf(operators) && !FindsProduct(products, operators, op);
            var notSkipped := set op | op in SetOf(skipOps) && !SkipsProduct(products, skipOps, op);
            Release(raws, operators, skipOps)
            == if notPatched != {} then Err(OperatorsNotPatched(notPatched))
               else if notSkipped != {} then Err(OperatorsNotSkipped(notSkipped))
               else Ok(Join(Contents(header, NotFound(AllFoundOverridden(products, operators), skipOps)), "\n"))
  {
    ReadableToPatch(header, products, operators, skipOps);
    PatchContents(raws, header, products, operators);
    var after := AllFoundOverridden(products, operators);
    ReadableToSkip(header, products, operators, skipOps);
    SkipContents(header, after, skipOps);
    forall op
      ensures SkipsProduct(after, skipOps, op) <==> SkipsProduct(products, skipOps, op)
    {
      OverriddenKeepsLines(products, operators, skipOps, op);
    }
    var patched := Patch(raws, operators, "");
    assert NamesOf(operators) - SetOf(patched.ops) == set op | op in NamesOf(operators) && !FindsProduct(products, operators, op);
    var skipped := Skip(patched.lines, skipOps, false);
    assert SetOf(skipOps) - SetOf(skipped.ops) == set op | op in SetOf(skipOps) && !SkipsProduct(products, skipOps, op);
  }

  // ---- Which operator is found on a line ----

  function NamesIn(operators: Operators): seq<string> {
    if operators == [] then [] else [operators[0].0] + NamesIn(operators[1..])
  }

  lemma {:induction false} NamesInExact(operators: Operators)
    ensures |NamesIn(operators)| == |operators|
    ensures forall i | 0 <= i < |operators| :: NamesIn(operators)[i] == operators[i].0
    ensures forall op :: op in NamesIn(operators) <==> op in NamesOf(operators)
  {
    if operators != [] {
      NamesInExact(operators[1..]);
      assert operators == [operators[0]] + operators[1..];
    }
  }

  // Both loops look for the first name of a list that occurs in a line.
  lemma {:induction false} MatchIsFirstName(line: string, operators: Operators)
    ensures FirstSkip(line, NamesIn(operators))
         == match FirstMatch(line, operators) case Some(found) => Some(found.0) case None => None
  {
    if operators != [] {
      assert NamesIn(operators)[1..] == NamesIn(operators[1..]);
      MatchIsFirstName(line, operators[1..]);
    }
  }

  // That a name listed before `op` occurs in the line.
  ghost predicate Hidden(line: string, names: seq<string>, op: string) {
    exists j :: 0 <= j < |names| && Contains(line, names[j]) && op !in names[..j + 1]
  }

  // A name is found exactly when it is listed, it occurs, and none listed before it does.
  lemma {:induction false} FirstIff(line: string, names: seq<string>, op: string)
    ensures FirstSkip(line, names) == Some(op) <==> op in names && Contains(line, op) && !Hidden(line, names, op)
  {
    if names != [] {
      var first, rest := names[0], names[1..];
      FirstIff(line, rest, op);
      assert names == [first] + rest && names[..1] == [first];
      if Contains(line, first) {
        if op != first {
          assert Hidden(line, names, op);
        } else {
          ListedFirst(line, names);
        }
      } else {
        HiddenStep(line, names, op);
      }
    }
  }

  lemma ListedFirst(line: string, names: seq<string>)
    requires names != []
    ensures !Hidden(line, names, names[0])
  {
    forall k {:trigger names[..k]} | 1 <= k <= |names|
      ensures names[0] in names[..k]
    {
      assert names[..k][0] == names[0];
    }
  }

  lemma HiddenStep(line: string, names: seq<string>, op: string)
    requires names != [] && !Contains(line, names[0])
    ensures op != names[0] ==> (Hidden(line, names, op) <==> Hidden(line, names[1..], op))
    ensures op == names[0] ==> !Hidden(line, names, op)
  {
    var rest := names[1..];
    if j :| 0 <= j < |rest| && Contains(line, rest[j]) && op !in rest[..j + 1] && op != names[0] {
      assert names[..j + 2] == [names[0]] + rest[..j + 1];
      assert Contains(line, names[j + 1]) && op !in names[..(j + 1) + 1];
    }
    if j :| 0 <= j < |names| && Contains(line, names[j]) && op !in names[..j + 1] {
      assert names[..j + 1][0] == names[0];
      assert rest[j - 1] == names[j] && names[..j + 1] == [names[0]] + rest[..j];
      assert op !in rest[..(j - 1) + 1];
    }
  }

  // ---- When that is the update that was asked for ----

  // On the product's line the first name found, if any, is the product's own.
  ghost predicate OwnFirst(p: Product, names: seq<string>) {
    FirstSkip(NameLine(p.name), names) in {None, Some(p.name)}
  }

  lemma {:induction false} FirstNamedIn(operators: Operators, name: string)
    ensures FirstNamed(operators, name).Some? <==> name in NamesOf(operators)
    ensures FirstNamed(operators, name).Some? ==>
              FirstNamed(operators, name).value in operators && FirstNamed(operators, name).value.0 == name
  {
    if operators != [] {
      FirstNamedIn(operators[1..], name);
      assert operators == [operators[0]] + operators[1..];
    }
  }

  lemma {:induction false} OverriddenAt(products: seq<Product>, operators: Operators)
    ensures |Overridden(products, operators)| == |products|
    ensures forall i | 0 <= i < |products| :: Overridden(products, operators)[i] == Override(products[i], operators)
  {
    if products != [] { OverriddenAt(products[1..], operators); }
  }

  // The version that the first operator of this name asks for; "" for none.
  function Requested(operators: Operators, name: string): string {
    match FirstNamed(operators, name)
    case None => ""
    case Some(operator) => operator.1
  }

  lemma {:induction false} ContainsSuffix(head: string, op: string, tail: string)
    ensures Contains(head + op + tail, op)
    decreases |head|
  {
    var line := head + op + tail;
    if head == "" {
      assert op <= line;
    } else {
      assert line[1..] == head[1..] + op + tail;
      ContainsSuffix(head[1..], op, tail);
    }
  }

  lemma {:induction false} FirstSkipExact(line: string, skipOps: seq<string>)
    ensures FirstSkip(line, skipOps).Some? <==> exists op :: op in skipOps && Contains(line, op)
    ensures FirstSkip(line, skipOps).Some? ==>
              FirstSkip(line, skipOps).value in skipOps && Contains(line, FirstSkip(line, skipOps).value)
  {
    if skipOps != [] {
      var first, rest := skipOps[0], skipOps[1..];
      assert first in skipOps;
      if !Contains(line, first) {
        FirstSkipExact(line, rest);
        forall op
          ensures op in skipOps && Contains(line, op) <==> op in rest && Contains(line, op)
        {
          assert skipOps == [first] + rest;
        }
      }
    }
  }

  lemma NamedIsFound(name: string, skipOps: seq<string>)
    requires name in skipOps
    ensures FirstSkip(NameLine(name), skipOps).Some?
  {
    ContainsSuffix("      ", name, ":");
    FirstSkipExact(NameLine(name), skipOps);
  }

  lemma {:induction false} NotFoundIsShorter(products: seq<Product>, skipOps: seq<string>)
    ensures |NotFound(products, skipOps)| <= |Remaining(products, skipOps)|
  {
    if products != [] {
      NotFoundIsShorter(products[1..], skipOps);
      if products[0].name in skipOps { NamedIsFound(products[0].name, skipOps); }
    }
  }

  // That a product is not skipped on account of another product's name.
  ghost predicate OnlyAsAsked(p: Product, skipOps: seq<string>) {
    forall op | op in skipOps && Contains(NameLine(p.name), op) :: p.name in skipOps
  }

  // Exactly the products that were asked for are skipped exactly when no other product's line
  // has a skipped operator's name.
  lemma {:induction false} SkipsAsAskedIff(products: seq<Product>, skipOps: seq<string>)
    ensures NotFound(products, skipOps) == Remaining(products, skipOps) <==>
            forall i | 0 <= i < |products| :: OnlyAsAsked(products[i], skipOps)
  {
    if products != [] {
      var p, rest := products[0], products[1..];
      SkipsAsAskedIff(rest, skipOps);
      NotFoundIsShorter(rest, skipOps);
      FirstSkipExact(NameLine(p.name), skipOps);
      if p.name in skipOps { NamedIsFound(p.name, skipOps); }
      AllOrRest(products, skipOps);
      SameTails(p, NotFound(rest, skipOps), Remaining(rest, skipOps));
      var keep, keep' := FirstSkip(NameLine(p.name), skipOps).None?, p.name !in skipOps;
      assert NotFound(products, skipOps) == if keep then [p] + NotFound(rest, skipOps) else NotFound(rest, skipOps);
      assert Remaining(products, skipOps) == if keep' then [p] + Remaining(rest, skipOps) else Remaining(rest, skipOps);
    }
  }

  lemma SameTails(p: Product, a: seq<Product>, b: seq<Product>)
    ensures [p] + a == [p] + b <==> a == b
  {
    assert ([p] + a)[1..] == a && ([p] + b)[1..] == b;
  }

  lemma AllOrRest(products: seq<Product>, skipOps: seq<string>)
    requires products != []
    ensures (forall i | 0 <= i < |products| :: OnlyAsAsked(products[i], skipOps)) <==>
            OnlyAsAsked(products[0], skipOps) && forall i | 0 <= i < |products| - 1 :: OnlyAsAsked(products[1..][i], skipOps)
  {
    assert forall i | 0 <= i < |products| - 1 :: products[1..][i] == products[i + 1];
    if forall i | 0 <= i < |products| - 1 :: OnlyAsAsked(products[1..][i], skipOps) {
      forall i | 0 < i < |products|
        ensures OnlyAsAsked(products[i], skipOps)
      {
        assert OnlyAsAsked(products[1..][i - 1], skipOps);
      }
    }
  }

  // With the product's own name found, the version found is the version requested for it.
  lemma {:induction false} OwnFirstIsRequested(p: Product, operators: Operators)
    requires OwnFirst(p, NamesIn(operators))
    ensures FoundVersion(p, operators) == Requested(operators, p.name)
  {
    if operators != [] {
      assert NamesIn(operators)[0] == operators[0].0 && NamesIn(operators)[1..] == NamesIn(operators[1..]);
      if Contains(NameLine(p.name), operators[0].0) {
        assert operators[0].0 == p.name;
      } else {
        ContainsSuffix("      ", p.name, ":");
        OwnFirstIsRequested(p, operators[1..]);
      }
    }
  }

  lemma OwnFirstOverrides(products: seq<Product>, operators: Operators)
    requires forall i | 0 <= i < |products| :: OwnFirst(products[i], NamesIn(operators))
    ensures AllFoundOverridden(products, operators) == Overridden(products, operators)
  {
    OverriddenAt(products, operators);
    FoundOverriddenAt(products, operators);
    forall i | 0 <= i < |products|
      ensures Override(products[i], operators) == FoundOverride(products[i], operators)
    {
      OwnFirstIsRequested(products[i], operators);
    }
  }

  // ---- Some versions show when it is not ----

  // The names, each with a version of a length of its own, all longer than `n`.
  function Versioned(names: seq<string>, n: nat): Operators {
    if names == [] then [] else [(names[0], seq(n + |names|, _ => 'v'))] + Versioned(names[1..], n)
  }

  lemma {:induction false} VersionedNames(names: seq<string>, n: nat)
    ensures NamesIn(Versioned(names, n)) == names
  {
    if names != [] {
      VersionedNames(names[1..], n);
      assert Versioned(names, n)[1..] == Versioned(names[1..], n);
    }
  }

  // Different names among them have versions of different lengths.
  lemma {:induction false} VersionedLengths(names: seq<string>, n: nat)
    ensures forall o | o in Versioned(names, n) :: n < |o.1| <= n + |names|
    ensures forall o, o' | o in Versioned(names, n) && o' in Versioned(names, n) && |o.1| == |o'.1| :: o == o'
  {
    if names != [] {
      VersionedLengths(names[1..], n);
      assert Versioned(names, n) == [(names[0], seq(n + |names|, _ => 'v'))] + Versioned(names[1..], n);
    }
  }

  lemma NotOwnOverridesWrongly(p: Product, names: seq<string>)
    requires !OwnFirst(p, names)
    ensures FoundOverride(p, Versioned(names, |p.version|)) != Override(p, Versioned(names, |p.version|))
  {
    var operators := Versioned(names, |p.version|);
    VersionedNames(names, |p.version|);
    VersionedLengths(names, |p.version|);
    MatchIsFirstName(NameLine(p.name), operators);
    FirstMatchIn(NameLine(p.name), operators);
    FirstNamedIn(operators, p.name);
    var found := FirstMatch(NameLine(p.name), operators).value;
    assert found.0 != p.name && found in operators && |found.1| > |p.version|;
    assert FoundOverride(p, operators).version == found.1;
    assert Override(p, operators).version == p.version || exists o :: o in operators && o.0 == p.name && o.1 == Override(p, operators).version;
  }

  // Whatever versions are requested for these names, versions are overridden as asked exactly
  // when on each product's line the first name found, if any, is the product's own.
  lemma OverridesAsAskedIff(products: seq<Product>, names: seq<string>)
    ensures (forall operators | NamesIn(operators) == names ::
               AllFoundOverridden(products, operators) == Overridden(products, operators))
       <==> (forall i | 0 <= i < |products| :: OwnFirst(products[i], names))
  {
    if forall i | 0 <= i < |products| :: OwnFirst(products[i], names) {
      forall operators | NamesIn(operators) == names
        ensures AllFoundOverridden(products, operators) == Overridden(products, operators)
      {
        OwnFirstOverrides(products, operators);
      }
    } else {
      var i :| 0 <= i < |products| && !OwnFirst(products[i], names);
      var operators := Versioned(names, |products[i].version|);
      VersionedNames(names, |products[i].version|);
      NotOwnOverridesWrongly(products[i], names);
      OverriddenAt(products, operators);
      FoundOverriddenAt(products, operators);
      assert AllFoundOverridden(products, operators)[i] != Overridden(products, operators)[i];
    }
  }

  // ---- When errors are as asked ----

  // The requested names that are no product of the file.
  ghost function Unknown(products: seq<Product>, names: seq<string>): set<string> {
    set op | op in names && !HasProduct(products, op)
  }

  // A name that is a product is found on some line; one that is none is hidden, on every line
  // where it occurs, behind a name listed before it.
  ghost predicate ToldApart(products: seq<Product>, names: seq<string>, op: string) {
    if HasProduct(products, op) then
      exists i :: 0 <= i < |products| && Contains(NameLine(products[i].name), op) && !Hidden(NameLine(products[i].name), names, op)
    else
      forall i | 0 <= i < |products| && Contains(NameLine(products[i].name), op) :: Hidden(NameLine(products[i].name), names, op)
  }

  lemma ToldApartIff(products: seq<Product>, names: seq<string>, op: string)
    requires op in names
    ensures (SkipsProduct(products, names, op) <==> HasProduct(products, op)) <==> ToldApart(products, names, op)
  {
    forall i | 0 <= i < |products|
      ensures FirstSkip(NameLine(products[i].name), names) == Some(op) <==>
              Contains(NameLine(products[i].name), op) && !Hidden(NameLine(products[i].name), names, op)
    {
      FirstIff(NameLine(products[i].name), names, op);
    }
  }

  // What the patcher reports as not found is exactly what is no product, exactly when it tells
  // the requested names apart.
  lemma ReportsAsAskedIff(products: seq<Product>, names: seq<string>)
    ensures (set op | op in names && !SkipsProduct(products, names, op)) == Unknown(products, names) <==>
            forall op | op in names :: ToldApart(products, names, op)
  {
    forall op | op in names
      ensures (SkipsProduct(products, names, op) <==> HasProduct(products, op)) <==> ToldApart(products, names, op)
    {
      ToldApartIff(products, names, op);
    }
    var reported := set op | op in names && !SkipsProduct(products, names, op);
    if reported == Unknown(products, names) {
      forall op | op in names
        ensures ToldApart(products, names, op)
      {
        assert op in reported <==> op in Unknown(products, names);
      }
    }
  }

  lemma FindsIsSkips(products: seq<Product>, operators: Operators, op: string)
    ensures FindsProduct(products, operators, op) <==> SkipsProduct(products, NamesIn(operators), op)
  {
    forall i | 0 <= i < |products|
      ensures FindsOn(products[i], operators, op) <==> FirstSkip(NameLine(products[i].name), NamesIn(operators)) == Some(op)
    {
      MatchIsFirstName(NameLine(products[i].name), operators);
    }
  }

  // For the file: the operators reported as not patched are those that are no product exactly
  // when the requested names are told apart. Otherwise a name that is no product is accepted,
  // or one that is a product is denied.
  lemma PatchErrorAsAskedIff(raws: seq<string>, header: seq<string>, products: seq<Product>, operators: Operators, skipOps: seq<string>)
    requires AreRaw(raws, Contents(header, products)) && Readable(header, products, operators, skipOps)
    ensures NamesOf(operators) - SetOf(Patch(raws, operators, "").ops) == Unknown(products, NamesIn(operators)) <==>
            forall op | op in NamesIn(operators) :: ToldApart(products, NamesIn(operators), op)
  {
    ReadableToPatch(header, products, operators, skipOps);
    PatchContents(raws, header, products, operators);
    NamesInExact(operators);
    forall op
      ensures FindsProduct(products, operators, op) <==> SkipsProduct(products, NamesIn(operators), op)
    {
      FindsIsSkips(products, operators, op);
    }
    var patched := Patch(raws, operators, "");
    assert NamesOf(operators) - SetOf(patched.ops) == set op | op in NamesIn(operators) && !SkipsProduct(products, NamesIn(operators), op);
    ReportsAsAskedIff(products, NamesIn(operators));
  }

  // The same for the operators reported as not skipped.
  lemma SkipErrorAsAskedIff(raws: seq<string>, header: seq<string>, products: seq<Product>, operators: Operators, skipOps: seq<string>)
    requires AreRaw(raws, Contents(header, products)) && Readable(header, products, operators, skipOps)
    ensures SetOf(skipOps) - SetOf(Skip(Patch(raws, operators, "").lines, skipOps, false).ops) == Unknown(products, skipOps) <==>
            forall op | op in skipOps :: ToldApart(products, skipOps, op)
  {
    ReadableToPatch(header, products, operators, skipOps);
    PatchContents(raws, header, products, operators);
    ReadableToSkip(header, products, operators, skipOps);
    SkipContents(header, AllFoundOverridden(products, operators), skipOps);
    forall op
      ensures SkipsProduct(AllFoundOverridden(products, operators), skipOps, op) <==> SkipsProduct(products, skipOps, op)
    {
      OverriddenKeepsLines(products, operators, skipOps, op);
    }
    var skipped := Skip(Patch(raws, operators, "").lines, skipOps, false);
    assert SetOf(skipOps) - SetOf(skipped.ops) == set op | op in skipOps && !SkipsProduct(products, skipOps, op);
    ReportsAsAskedIff(products, skipOps);
  }

  lemma OneProduct(p: Product, name: string)
    ensures HasProduct([p], name) <==> p.name == name
  {
    if p.name == name { assert [p][0].name == name; }
  }

  // Part of a product's name is accepted, and patches that product.
  lemma PartOfANameIsAccepted(raws: seq<string>, part: string, rest: string, version: string, requested: string)
    requires rest != "" && AreRaw(raws, Contents([], [Product(part + rest, version)]))
    requires Readable([], [Product(part + rest, version)], [(part, requested)], [])
    ensures !HasProduct([Product(part + rest, version)], part)
    ensures Release(raws, [(part, requested)], [])
         == Ok(Join(Contents([], [Product(part + rest, VersionOr(requested, version))]), "\n"))
  {
    var p, operators := Product(part + rest, version), [(part, requested)];
    OneProduct(p, part);
    assert |part + rest| > |part|;
    ContainsSuffix("      ", part, rest + ":");
    assert NameLine(p.name) == "      " + part + (rest + ":");
    assert FirstMatch(NameLine(p.name), operators) == Some((part, requested));
    ReleaseByLines(raws, [], [p], operators, []);
    assert FindsOn([p][0], operators, part);
    assert [p][1..] == [];
    assert AllFoundOverridden([p], operators) == [p.(version := VersionOr(requested, version))];
    assert NotFound([p.(version := VersionOr(requested, version))], []) == [p.(version := VersionOr(requested, version))];
  }

  // A product is denied if part of its name is listed before it.
  lemma LaterNameIsDenied(raws: seq<string>, part: string, rest: string, version: string, v: string, w: string)
    requires rest != "" && AreRaw(raws, Contents([], [Product(part + rest, version)]))
    requires Readable([], [Product(part + rest, version)], [(part, v), (part + rest, w)], [])
    ensures HasProduct([Product(part + rest, version)], part + rest)
    ensures Release(raws, [(part, v), (part + rest, w)], []) == Err(OperatorsNotPatched({part + rest}))
  {
    var p, operators := Product(part + rest, version), [(part, v), (part + rest, w)];
    OneProduct(p, part + rest);
    assert |part + rest| > |part|;
    ContainsSuffix("      ", part, rest + ":");
    assert NameLine(p.name) == "      " + part + (rest + ":");
    assert FirstMatch(NameLine(p.name), operators) == Some((part, v));
    ReleaseByLines(raws, [], [p], operators, []);
    FindsOnly(p, operators, part);
    NamesOfTwo(part, v, part + rest, w);
    assert (set op | op in NamesOf(operators) && !FindsProduct([p], operators, op)) == {part + rest};
  }

  lemma FindsOnly(p: Product, operators: Operators, op: string)
    requires FindsOn(p, operators, op)
    ensures forall x :: FindsProduct([p], operators, x) <==> x == op
  {
    assert FindsOn([p][0], operators, op);
  }

  lemma NamesOfTwo(a: string, v: string, b: string, w: string)
    ensures NamesOf([(a, v), (b, w)]) == {a, b}
  {
    var operators := [(a, v), (b, w)];
    assert operators[0] in operators && operators[1] in operators;
  }

  // ---- The refinement of an update on the list of products ----

  lemma OwnFirstFinds(products: seq<Product>, names: seq<string>, op: string)
    requires forall i | 0 <= i < |products| :: OwnFirst(products[i], names)
    ensures SkipsProduct(products, names, op) <==> op in names && HasProduct(products, op)
  {
    forall i | 0 <= i < |products|
      ensures FirstSkip(NameLine(products[i].name), names) == Some(op) <==> op in names && products[i].name == op
    {
      FirstSkipExact(NameLine(products[i].name), names);
      if products[i].name in names { NamedIsFound(products[i].name, names); }
    }
  }

  lemma OwnFirstAsAsked(products: seq<Product>, operators: Operators, skipOps: seq<string>)
    requires forall i | 0 <= i < |products| :: OwnFirst(products[i], NamesIn(operators)) && OwnFirst(products[i], skipOps)
    ensures NotFound(AllFoundOverridden(products, operators), skipOps) == Remaining(Overridden(products, operators), skipOps)
  {
    OwnFirstOverrides(products, operators);
    FoundOverriddenAt(products, operators);
    var after := AllFoundOverridden(products, operators);
    forall i | 0 <= i < |after|
      ensures OnlyAsAsked(after[i], skipOps)
    {
      assert OwnFirst(products[i], skipOps);
      FirstSkipExact(NameLine(products[i].name), skipOps);
    }
    SkipsAsAskedIff(after, skipOps);
  }

  // Where on each product's line the first name found is the product's own, the patched file
  // is the release file of the updated list of products: versions overridden, skipped products
  // gone, everything else as it was. It is an error to name a product that the file does not
  // have.
  lemma ReleaseRefines(raws: seq<string>, header: seq<string>, products: seq<Product>, operators: Operators, skipOps: seq<string>)
    requires AreRaw(raws, Contents(header, products)) && Readable(header, products, operators, skipOps)
    requires forall i | 0 <= i < |products| :: OwnFirst(products[i], NamesIn(operators)) && OwnFirst(products[i], skipOps)
    ensures var notPatched := set op | op in NamesOf(operators) && !HasProduct(products, op);
            var notSkipped := set op | op in SetOf(skipOps) && !HasProduct(products, op);
            Release(raws, operators, skipOps)
            == if notPatched != {} then Err(OperatorsNotPatched(notPatched))
               else if notSkipped != {} then Err(OperatorsNotSkipped(notSkipped))
               else Ok(Join(Contents(header, Remaining(Overridden(products, operators), skipOps)), "\n"))
  {
    ReleaseByLines(raws, header, products, operators, skipOps);
    OwnFirstAsAsked(products, operators, skipOps);
    NamesInExact(operators);
    forall op
      ensures FindsProduct(products, operators, op) <==> op in NamesOf(operators) && HasProduct(products, op)
      ensures SkipsProduct(products, skipOps, op) <==> op in skipOps && HasProduct(products, op)
    {
      FindsIsSkips(products, operators, op);
      OwnFirstFinds(products, NamesIn(operators), op);
      OwnFirstFinds(products, skipOps, op);
    }
    var notPatched := set op | op in NamesOf(operators) && !HasProduct(products, op);
    assert notPatched == set op | op in NamesOf(operators) && !FindsProduct(products, operators, op);
    var notSkipped := set op | op in SetOf(skipOps) && !HasProduct(products, op);
    assert notSkipped == set op | op in SetOf(skipOps) && !SkipsProduct(products, skipOps, op);
  }

  // Names that occur only on their own product's line are of this kind, in any list.
  lemma SeparateNamesAreOwn(p: Product, names: seq<string>)
    requires forall op | op in names :: Contains(NameLine(p.name), op) ==> op == p.name
    ensures OwnFirst(p, names)
  {
    FirstSkipExact(NameLine(p.name), names);
  }
}
