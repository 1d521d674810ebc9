/**
 The release-file patcher of the test runner (scripts/run-tests, `release_file._patch`): one
 loop patches versions, one removes skipped products, both line by line with a little state.
 */
module ReleaseFile {
  import opened Common
  import opened Text

  // `op in line`
  predicate Contains(line: string, op: string) {
    op <= line || (line != "" && Contains(line[1..], op))
  }

  // `line.rstrip("\n")`
  function RStrip(line: string): string {
    if line != "" && line[|line| - 1] == '\n' then RStrip(line[..|line| - 1]) else line
  }

  function EndsInNewline(line: string): bool {
    line != "" && line[|line| - 1] == '\n'
  }

  // `re.sub(":.+$", f": {version}", line)`: the first colon that something follows, up to the
  // end of the line.
  function Substitute(line: string, version: string): string {
    var end := if EndsInNewline(line) then |line| - 1 else |line|;
    var body := line[..end];
    var i := IndexOf(body, ':');
    if i + 1 < |body| then body[..i] + ": " + version + line[end..] else line
  }

  type Operators = seq<(string, string)>

  // The first requested operator whose name occurs in the line.
  function FirstMatch(line: string, operators: Operators): Option<(string, string)> {
    if operators == [] then None
    else if Contains(line, operators[0].0) then Some(operators[0])
    else FirstMatch(line, operators[1..])
  }

  datatype Patched = Patched(lines: seq<string>, ops: seq<string>)

  // What one turn of the patch loop writes for a line, given the version that is pending.
  function Output(line: string, pending: string): string {
    RStrip(if pending != "" then Substitute(line, pending) else line)
  }

  // A line that has a version pending is not searched for operators.
  function Found(line: string, operators: Operators, pending: string): Option<(string, string)> {
    if pending != "" then None else FirstMatch(line, operators)
  }

  function NextPending(line: string, operators: Operators, pending: string): string {
    match Found(line, operators, pending)
    case None => ""
    case Some(found) => found.1
  }

  function FoundOps(line: string, operators: Operators, pending: string): seq<string> {
    match Found(line, operators, pending)
    case None => []
    case Some(found) => [found.0]
  }

  // The patch loop, from a line on.
  function Patch(lines: seq<string>, operators: Operators, pending: string): Patched {
    if lines == [] then Patched([], [])
    else
      var rest := Patch(lines[1..], operators, NextPending(lines[0], operators, pending));
      Patched([Output(lines[0], pending)] + rest.lines, FoundOps(lines[0], operators, pending) + rest.ops)
  }

  method PatchLines(lines: seq<string>, operators: Operators) returns (patchedRelease: seq<string>, patchedOps: seq<string>)
    ensures Patched(patchedRelease, patchedOps) == Patch(lines, operators, "")
  {
    patchedRelease, patchedOps := [], [];
    var patchVersion := "";
    for i := 0 to |lines|
      invariant Continues(Patch(lines, operators, ""), patchedRelease, patchedOps, Patch(lines[i..], operators, patchVersion))
    {
      PatchOfRest(lines, i, operators, patchVersion);
      ghost var below := Patch(lines[i + 1..], operators, NextPending(lines[i], operators, patchVersion));
      var line, ops;
      ghost var before := patchVersion;
      line, patchVersion, ops := PatchLine(lines[i], operators, patchVersion);
      ContinueWith(Patch(lines, operators, ""), patchedRelease, patchedOps, Patch(lines[i..], operators, before), line, ops, below);
      patchedRelease := patchedRelease + [line];
      patchedOps := patchedOps + ops;
    }
    assert lines[|lines|..] == [];
  }

  // `all` is what was written so far, followed by `rest`.
  ghost predicate Continues(all: Patched, lines: seq<string>, ops: seq<string>, rest: Patched) {
    all.lines == lines + rest.lines && all.ops == ops + rest.ops
  }

  lemma ContinueWith(all: Patched, lines: seq<string>, ops: seq<string>, rest: Patched, line: string, found: seq<string>, below: Patched)
    requires Continues(all, lines, ops, rest)
    requires rest == Patched([line] + below.lines, found + below.ops)
    ensures Continues(all, lines + [line], ops + found, below)
  {
  }

  lemma PatchOfRest(lines: seq<string>, i: nat, operators: Operators, pending: string)
    requires i < |lines|
    ensures var rest := Patch(lines[i + 1..], operators, NextPending(lines[i], operators, pending));
            Patch(lines[i..], operators, pending)
            == Patched([Output(lines[i], pending)] + rest.lines, FoundOps(lines[i], operators, pending) + rest.ops)
  {
    assert lines[i..][0] == lines[i] && lines[i..][1..] == lines[i + 1..];
  }

  // One turn of the loop.
  method PatchLine(line: string, operators: Operators, pending: string)
    returns (patched: string, patchVersion: string, ops: seq<string>)
    ensures patched == Output(line, pending)
    ensures patchVersion == NextPending(line, operators, pending)
    ensures ops == FoundOps(line, operators, pending)
  {
    patched, patchVersion, ops := line, pending, [];
    if patchVersion != "" {
      patched := Substitute(line, patchVersion);
      patchVersion := "";
    } else {
      var found := FindMatch(line, operators);
      if found.Some? {
        patchVersion := found.value.1;
        ops := [found.value.0];
      }
    }
    patched := RStrip(patched);
  }

  // The inner loop, with its `break`.
  method FindMatch(line: string, operators: Operators) returns (r: Option<(string, string)>)
    ensures r == FirstMatch(line, operators)
  {
    for j := 0 to |operators|
      invariant FirstMatch(line, operators) == FirstMatch(line, operators[j..])
    {
      assert operators[j..][1..] == operators[j + 1..];
      if Contains(line, operators[j].0) { return Some(operators[j]); }
    }
    r := None;
  }

  function FirstSkip(line: string, skipOps: seq<string>): Option<string> {
    if skipOps == [] then None
    else if Contains(line, skipOps[0]) then Some(skipOps[0])
    else FirstSkip(line, skipOps[1..])
  }

  // The skip loop, from a line on; `skip` says that this line belongs to a skipped product.
  function Skip(lines: seq<string>, skipOps: seq<string>, skip: bool): Patched {
    if lines == [] then Patched([], [])
    else if skip then Skip(lines[1..], skipOps, false)
    else
      match FirstSkip(lines[0], skipOps)
      case Some(op) =>
        var rest := Skip(lines[1..], skipOps, true);
        Patched(rest.lines, [op] + rest.ops)
      case None =>
        var rest := Skip(lines[1..], skipOps, false);
        Patched([lines[0]] + rest.lines, rest.ops)
  }

  method SkipLines(lines: seq<string>, skipOps: seq<string>) returns (releaseContents: seq<string>, validSkipOps: seq<string>)
    ensures Patched(releaseContents, validSkipOps) == Skip(lines, skipOps, false)
  {
    releaseContents, validSkipOps := [], [];
    var skipLines := 0;
    for i := 0 to |lines|
      invariant 0 <= skipLines <= 1
      invariant Skip(lines, skipOps, false).lines == releaseContents + Skip(lines[i..], skipOps, skipLines != 0).lines
      invariant Skip(lines, skipOps, false).ops == validSkipOps + Skip(lines[i..], skipOps, skipLines != 0).ops
    {
      assert lines[i..][1..] == lines[i + 1..];
      if skipLines != 0 {
        skipLines := skipLines - 1;
        continue;
      }
      var j := 0;
      while j < |skipOps| && !Contains(lines[i], skipOps[j])
        invariant j <= |skipOps|
        invariant FirstSkip(lines[i], skipOps) == FirstSkip(lines[i], skipOps[j..])
      {
        assert skipOps[j..][1..] == skipOps[j + 1..];
        j := j + 1;
      }
      if j < |skipOps| {
        skipLines := 1;
        validSkipOps := validSkipOps + [skipOps[j]];
      } else {
        releaseContents := releaseContents + [lines[i]];
      }
    }
    assert lines[|lines|..] == [];
  }

  function NamesOf(operators: Operators): set<string> {
    set p | p in operators :: p.0
  }

  function SetOf(ops: seq<string>): set<string> {
    set op | op in ops
  }

  datatype PatchError = OperatorsNotPatched(names: set<string>) | OperatorsNotSkipped(names: set<string>)

  // The contents of the patched file.
  function Release(lines: seq<string>, operators: Operators, skipOps: seq<string>): Result<string, PatchError> {
    var patched := Patch(lines, operators, "");
    var notPatched := NamesOf(operators) - SetOf(patched.ops);
    if notPatched != {} then Err(OperatorsNotPatched(notPatched))
    else
      var skipped := Skip(patched.lines, skipOps, false);
      var notSkipped := SetOf(skipOps) - SetOf(skipped.ops);
      if notSkipped != {} then Err(OperatorsNotSkipped(notSkipped)) else Ok(Join(skipped.lines, "\n"))
  }

  // `_patch`, without opening and writing the files.
  method PatchRelease(lines: seq<string>, operators: Operators, skipOps: seq<string>) returns (r: Result<string, PatchError>)
    ensures r == Release(lines, operators, skipOps)
  {
    var patchedRelease, patchedOps := PatchLines(lines, operators);
    var opsNotPatched := NamesOf(operators) - SetOf(patchedOps);
    if opsNotPatched != {} { return Err(OperatorsNotPatched(opsNotPatched)); }
    var releaseContents, validSkipOps := SkipLines(patchedRelease, skipOps);
    var opsNotSkipped := SetOf(skipOps) - SetOf(validSkipOps);
    if opsNotSkipped != {} { return Err(OperatorsNotSkipped(opsNotSkipped)); }
    r := Ok(Join(releaseContents, "\n"));
  }
}
