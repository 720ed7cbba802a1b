/**
  The git side of bev (bev/vc.py): versions, and the command strings that
  `SubprocessGit` hands to git together with the parsing of what git prints.
  Running git is the oracle `Git.call`.
 */
module Vc {
  import opened Errors
  import opened Paths
  import opened Oracles
  import opened ConfigUtils

  /** A data version: the working copy (`Local`; every `LocalVersion` equals
      every other) or a committed version named by a commit, tag or branch. */
  datatype Version = Local | Committed(handle: string)

  /** What `_call_git` gives back: the stripped standard output, or the exit
      code of a failed command (`CalledProcessError.returncode`). */
  datatype GitOutcome = Output(text: string) | Failed(code: int)

  /** A `SubprocessGit` for the repository at the absolute path `root`;
      `call(command, cwd)` runs one git command in `cwd`. */
  datatype Git = Git(root: Path, disk: Disk, call: (string, Path) -> GitOutcome)

  /** Relative paths are handed to git as `./path`. */
  function DotSlash(relative: string): (r: string)
    ensures StartsWith(r, "./")
    ensures StartsWith(relative, "./") ==> r == relative
    ensures !StartsWith(relative, "./") ==> r == "./" + relative
  {
    if StartsWith(relative, "./") then relative else "./" + relative
  }

  function ShowCommand(relative: string, version: string): string {
    "git show " + version + ":" + DotSlash(relative)
  }

  /** `read`: the file's contents at `version`, or None when git fails. */
  function Read(git: Git, relative: string, version: string): (r: Option<string>)
    ensures r.None? <==> git.call("git show " + version + ":" + DotSlash(relative), git.root).Failed?
    ensures r.Some? ==> r.value == git.call("git show " + version + ":" + DotSlash(relative), git.root).text
  {
    match git.call(ShowCommand(relative, version), git.root)
    case Failed(_) => None
    case Output(text) => Some(text)
  }

  function Digit(d: nat): char
    requires d < 10
  {
    "0123456789"[d]
  }

  function DigitValue(c: char): nat {
    if '0' <= c <= '9' then (c - '0') as nat else 0
  }

  /** `str(n)` for a natural number. */
  function NatToString(n: nat): (s: string)
    ensures |s| >= 1 && forall i :: 0 <= i < |s| ==> '0' <= s[i] <= '9'
  {
    if n < 10 then [Digit(n)] else NatToString(n / 10) + [Digit(n % 10)]
  }

  /** The value of a string of decimal digits. */
  function DecimalValue(s: string): nat {
    if s == [] then 0 else DecimalValue(s[..|s| - 1]) * 10 + DigitValue(s[|s| - 1])
  }

  lemma {:induction false} DecimalOfNat(n: nat)
    ensures DecimalValue(NatToString(n)) == n
  {
    if n >= 10 {
      DecimalOfNat(n / 10);
      var s := NatToString(n);
      assert s[..|s| - 1] == NatToString(n / 10);
    }
  }

  /** `str(n)` for any integer. */
  function IntToString(n: int): string {
    if n < 0 then "-" + NatToString(-n) else NatToString(n)
  }

  /** The `--skip` flag of `get_version`: none for the latest version. */
  function SkipFlag(n: int): (r: string)
    ensures n == 0 ==> r == ""
    ensures n != 0 ==> StartsWith(r, "--skip ")
  {
    if n == 0 then "" else "--skip " + IntToString(n)
  }

  /** The number after `--skip` reads back as `n`. */
  lemma SkipFlagValue(n: nat)
    requires n != 0
    ensures SkipFlag(n)[|"--skip "|..] == NatToString(n)
    ensures DecimalValue(SkipFlag(n)[|"--skip "|..]) == n
  {
    assert SkipFlag(n) == "--skip " + NatToString(n);
    DecimalOfNat(n);
  }

  function LogCommand(relative: string, n: int): string {
    "git log -n 1 " + SkipFlag(n) + " --pretty=format:%H -- " + DotSlash(relative)
  }

  /** `get_version`: the commit that last touched the path, `n` commits back;
      None when git fails or prints nothing. */
  function GetVersion(git: Git, relative: string, n: int): (r: Option<string>)
    ensures var out := git.call(LogCommand(relative, n), git.root);
      && (r.None? <==> out.Failed? || out.text == "")
      && (r.Some? ==> r.value == out.text)
  {
    match git.call(LogCommand(relative, n), git.root)
    case Failed(_) => None
    case Output(text) => if text == "" then None else Some(text)
  }

  // ---------------------------------------------------------------------------
  // list_dir

  /** One step of `os.path.normpath`: '..' cancels the previous real part. */
  function NormStep(acc: Path, part: string): Path {
    if part == ".." && acc != [] && acc[|acc| - 1] != ".." then acc[..|acc| - 1] else acc + [part]
  }

  /** A normal relative path: its '..' parts all come before its real parts. */
  predicate NormalPath(p: Path) {
    forall i, j :: 0 <= j < i < |p| && p[i] == ".." ==> p[j] == ".."
  }

  /** `os.path.normpath` of a relative path (whose '.' parts are already gone). */
  function Normpath(p: Path): (r: Path)
    ensures ValidPath(p) ==> ValidPath(r)
    ensures |r| <= |p|
    ensures NormalPath(r)
  {
    if p == [] then [] else NormStep(Normpath(p[..|p| - 1]), p[|p| - 1])
  }

  /** A real part followed by '..' cancels out. */
  lemma NormpathCancels(p: Path, part: string)
    requires part != ".."
    ensures Normpath(p + [part, ".."]) == Normpath(p)
  {
    assert (p + [part, ".."])[..|p| + 1] == p + [part];
    assert (p + [part])[..|p|] == p;
  }

  /** Normal paths are left alone, so `Normpath` is idempotent. */
  lemma {:induction false} NormpathOfNormal(p: Path)
    requires NormalPath(p)
    ensures Normpath(p) == p
  {
    if p != [] {
      var init := p[..|p| - 1];
      assert NormalPath(init) by {
        forall i, j | 0 <= j < i < |init| && init[i] == ".."
          ensures init[j] == ".."
        {
          assert p[i] == init[i] && p[j] == init[j];
        }
      }
      NormpathOfNormal(init);
      if p[|p| - 1] == ".." && init != [] {
        assert init[|init| - 1] == p[|p| - 2];
      }
      assert init + [p[|p| - 1]] == p;
    }
  }

  lemma NormpathIdempotent(p: Path)
    ensures Normpath(Normpath(p)) == Normpath(p)
  {
    NormpathOfNormal(Normpath(p));
  }

  /** Paths without '..' are already normal. */
  lemma {:induction false} NormpathPlain(p: Path)
    requires forall i :: 0 <= i < |p| ==> p[i] != ".."
    ensures Normpath(p) == p
  {
    if p != [] {
      NormpathPlain(p[..|p| - 1]);
      assert p[..|p| - 1] + [p[|p| - 1]] == p;
    }
  }

  /** The object suffix of `git ls-tree`: nothing for the git root itself. */
  function TreeSuffix(gitRelative: string): (r: string)
    ensures gitRelative == "." <==> r == ""
  {
    if gitRelative == "." then "" else ":" + gitRelative
  }

  function LsTreeCommand(version: string, gitRelative: string): string {
    "git ls-tree " + version + TreeSuffix(gitRelative)
  }

  /** `str.splitlines` of git's (stripped) output. */
  function SplitLines(text: string): (r: seq<string>)
    ensures text == "" <==> r == []
  {
    if text == "" then [] else Split(text, '\n')
  }

  /** The four fields of an ls-tree line `mode SP kind SP object TAB name`, as
      `line.split(' ', 2)` and then `rest.split('\t')` find them. */
  datatype LineFields = LineFields(mode: string, kind: string, oid: string, name: string)

  function SplitLine(line: string): (r: Result<LineFields>)
    ensures r.Err? ==> r.error == ValueError(MalformedLine)
  {
    if ' ' !in line then Err(ValueError(MalformedLine))
    else
      var i := IndexOf(line, ' ');
      SplitKind(line[..i], line[i + 1..])
  }

  function SplitKind(mode: string, tail: string): (r: Result<LineFields>)
    ensures r.Err? ==> r.error == ValueError(MalformedLine)
  {
    if ' ' !in tail then Err(ValueError(MalformedLine))
    else
      var j := IndexOf(tail, ' ');
      SplitName(mode, tail[..j], tail[j + 1..])
  }

  function SplitName(mode: string, kind: string, rest: string): Result<LineFields> {
    var pieces := Split(rest, '\t');
    if |pieces| != 2 then Err(ValueError(MalformedLine))
    else Ok(LineFields(mode, kind, pieces[0], pieces[1]))
  }

  /** The line git prints for one tree entry. */
  function FormatLine(f: LineFields): string {
    f.mode + " " + f.kind + " " + f.oid + "\t" + f.name
  }

  predicate Printable(f: LineFields) {
    ' ' !in f.mode && ' ' !in f.kind && '\t' !in f.oid && '\t' !in f.name
  }

  /** Splitting at the first `c` of `a + [c] + b` gives `a` and `b`. */
  lemma SplitFirst(a: string, c: char, b: string)
    requires c !in a
    ensures c in a + [c] + b
    ensures (a + [c] + b)[..IndexOf(a + [c] + b, c)] == a
    ensures (a + [c] + b)[IndexOf(a + [c] + b, c) + 1..] == b
  {
    IndexOfAfter(a, c, b);
    var s := a + [c] + b;
    assert s[..|a|] == a && s[|a| + 1..] == b;
  }

  lemma SplitAround(a: string, c: char, b: string)
    requires c !in a && c !in b
    ensures Split(a + [c] + b, c) == [a, b]
  {
    SplitFirst(a, c, b);
  }

  /** Splitting a printed line gives back its fields. */
  lemma SplitFormatLine(f: LineFields)
    requires Printable(f)
    ensures SplitLine(FormatLine(f)) == Ok(f)
  {
    var last := f.oid + "\t" + f.name;
    var rest := f.kind + " " + last;
    assert FormatLine(f) == f.mode + [' '] + rest;
    SplitFirst(f.mode, ' ', rest);
    assert SplitLine(FormatLine(f)) == SplitKind(f.mode, rest);
    assert rest == f.kind + [' '] + last;
    SplitFirst(f.kind, ' ', last);
    assert SplitKind(f.mode, rest) == SplitName(f.mode, f.kind, last);
    assert last == f.oid + ['\t'] + f.name;
    SplitAround(f.oid, '\t', f.name);
  }

  /** The git mode of a symbolic link. */
  const SymlinkMode: string := "120000"

  /** The object kinds `git ls-tree` prints. */
  predicate GitKind(kind: string) {
    kind == "blob" || kind == "tree" || kind == "commit"
  }

  /** One line of `list_dir` as the code reads it: a symbolic link is
      recognised by the kind `link`. */
  function ParseLineAsWritten(line: string): Result<TreeEntry> {
    var f :- SplitLine(line);
    Ok(TreeEntry(f.name, f.kind == "tree", f.kind == "link"))
  }

  /** Git prints a symbolic link as a `blob` with mode 120000, so the line
      parsed as written never reports a symbolic link. */
  lemma AsWrittenMissesSymlinks(f: LineFields)
    requires Printable(f) && GitKind(f.kind)
    ensures ParseLineAsWritten(FormatLine(f)).Ok?
    ensures !ParseLineAsWritten(FormatLine(f)).value.isSymlink
  {
    SplitFormatLine(f);
  }

  /** The link git prints for `link -> target` in a committed tree. */
  lemma AsWrittenSymlinkExample()
    ensures ParseLineAsWritten("120000 blob 1f2e\tlink") == Ok(TreeEntry("link", false, false))
  {
    var f := LineFields("120000", "blob", "1f2e", "link");
    assert FormatLine(f) == "120000 blob 1f2e\tlink";
    AsWrittenMissesSymlinks(f);
    SplitFormatLine(f);
  }

  /** One line of `list_dir`: the entry is a directory when git calls it a
      tree and a symbolic link when its mode is 120000. */
  function ParseEntry(line: string): Result<TreeEntry> {
    var f :- SplitLine(line);
    Ok(TreeEntry(f.name, f.kind == "tree", f.mode == SymlinkMode))
  }

  /** Every printed entry parses back to its name, directory flag and link flag. */
  lemma ParseEntryOfFormat(f: LineFields)
    requires Printable(f)
    ensures ParseEntry(FormatLine(f)) == Ok(TreeEntry(f.name, f.kind == "tree", f.mode == SymlinkMode))
    ensures ParseEntry(FormatLine(f)).value.isSymlink <==> f.mode == SymlinkMode
  {
    SplitFormatLine(f);
  }

  /** Every line parsed by `parse`, in order; the first failing line's error
      is raised. */
  function ParseAll<T>(lines: seq<string>, parse: string -> Result<T>): Result<seq<T>> {
    if lines == [] then Ok([])
    else
      var init :- ParseAll(lines[..|lines| - 1], parse);
      var e :- parse(lines[|lines| - 1]);
      Ok(init + [e])
  }

  function ParseLines(lines: seq<string>): Result<seq<TreeEntry>> {
    ParseAll(lines, ParseEntry)
  }

  /** The lines parse exactly when each of them does, and then give one entry
      per line, in order. */
  lemma {:induction false} ParseAllSpec<T>(lines: seq<string>, parse: string -> Result<T>)
    ensures ParseAll(lines, parse).Ok? <==> forall i :: 0 <= i < |lines| ==> parse(lines[i]).Ok?
    ensures ParseAll(lines, parse).Ok? ==>
              |ParseAll(lines, parse).value| == |lines|
              && forall i :: 0 <= i < |lines| ==> ParseAll(lines, parse).value[i] == parse(lines[i]).value
    ensures ParseAll(lines, parse).Err? ==>
              exists i :: 0 <= i < |lines| && parse(lines[i]).Err? && ParseAll(lines, parse).error == parse(lines[i]).error
                          && forall j :: 0 <= j < i ==> parse(lines[j]).Ok?
  {
    if lines != [] {
      var init := lines[..|lines| - 1];
      ParseAllSpec(init, parse);
      assert forall i :: 0 <= i < |init| ==> init[i] == lines[i];
      if ParseAll(init, parse).Err? {
        var i :| 0 <= i < |init| && parse(init[i]).Err? && ParseAll(init, parse).error == parse(init[i]).error
                 && forall j :: 0 <= j < i ==> parse(init[j]).Ok?;
        assert init[i] == lines[i];
      } else if ParseAll(lines, parse).Err? {
        assert forall j :: 0 <= j < |init| ==> parse(lines[j]).Ok?;
      }
    }
  }

  /** The path of `root / relative` below the git root, as `os.path.normpath`
      writes it. */
  function GitRelative(root: Path, gitRoot: Path, relative: string): string
    requires |gitRoot| <= |root|
  {
    Render(Normpath(root[|gitRoot|..] + ParsePath(relative)))
  }

  /** What `list_dir(relative, version)` returns or raises. */
  function ListDirSpec(git: Git, relative: string, version: string): Result<seq<TreeEntry>> {
    match FindVcsRoot(git.disk, git.root)
    case None => Err(FileNotFound)
    case Some(gitRoot) =>
      match git.call(LsTreeCommand(version, GitRelative(git.root, gitRoot, relative)), gitRoot)
      case Failed(code) => if code == 128 then Err(FileNotFound) else Err(GitFailed(code))
      case Output(text) => ParseLines(SplitLines(text))
  }

  /** `list_dir`: runs `git ls-tree` at the git root and turns each printed
      line into a `TreeEntry`. */
  method ListDir(git: Git, relative: string, version: string) returns (r: Result<seq<TreeEntry>>)
    ensures r == ListDirSpec(git, relative, version)
  {
    var gitRoot := FindVcsRoot(git.disk, git.root);
    if gitRoot.None? {
      return Err(FileNotFound);
    }
    var gitRelative := GitRelative(git.root, gitRoot.value, relative);
    var outcome := git.call(LsTreeCommand(version, gitRelative), gitRoot.value);
    if outcome.Failed? {
      if outcome.code == 128 {
        return Err(FileNotFound);
      }
      return Err(GitFailed(outcome.code));
    }
    r := ParseOutput(outcome.text);
  }

  /** The loop of `list_dir`: one `TreeEntry` appended per printed line. */
  method ParseOutput(text: string) returns (r: Result<seq<TreeEntry>>)
    ensures r == ParseLines(SplitLines(text))
  {
    var lines := SplitLines(text);
    var result: seq<TreeEntry> := [];
    var i := 0;
    while i < |lines|
      invariant 0 <= i <= |lines|
      invariant ParseLines(lines[..i]) == Ok(result)
    {
      ParseAllStep(lines, i, ParseEntry);
      var entry := ParseEntry(lines[i]);
      if entry.Err? {
        ParseErrorPersists(lines, i + 1, ParseEntry);
        return Err(entry.error);
      }
      result := result + [entry.value];
      i := i + 1;
    }
    assert lines[..i] == lines;
    return Ok(result);
  }

  /** One more line: its entry is appended, or its error is raised. */
  lemma ParseAllStep<T>(lines: seq<string>, i: nat, parse: string -> Result<T>)
    requires i < |lines| && ParseAll(lines[..i], parse).Ok?
    ensures parse(lines[i]).Err? ==> ParseAll(lines[..i + 1], parse) == Err(parse(lines[i]).error)
    ensures parse(lines[i]).Ok? ==>
              ParseAll(lines[..i + 1], parse) == Ok(ParseAll(lines[..i], parse).value + [parse(lines[i]).value])
  {
    assert lines[..i + 1][..i] == lines[..i];
  }

  /** Once a prefix of the lines fails to parse, so do all the lines. */
  lemma {:induction false} ParseErrorPersists<T>(lines: seq<string>, k: nat, parse: string -> Result<T>)
    requires k <= |lines| && ParseAll(lines[..k], parse).Err?
    ensures ParseAll(lines, parse) == ParseAll(lines[..k], parse)
    decreases |lines| - k
  {
    if k < |lines| {
      assert lines[..k + 1][..k] == lines[..k];
      ParseErrorPersists(lines, k + 1, parse);
    } else {
      assert lines[..k] == lines;
    }
  }
}
