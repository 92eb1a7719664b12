/**
 * The driver around the replay: input paths are sorted, each file is cut at the separator
 * line, parsed and replayed into one shared schema, and the first failing file ends the run.
 * Reading files and the SQL parser are parameters: `files` maps each readable path to its
 * text, `parse` stands for the parser.
 */
module Driver {
  import opened Wrappers
  import opened Text
  import opened Ast
  import opened Replay
  import opened Schema
  import opened Laws

  /** The line that ends the part of a migration file that is replayed. */
  const Separator := "---- create above / drop below ----"

  /** The text before the first separator, the whole text when there is none. */
  function CutAtSeparator(text: string): (r: string)
    ensures |r| <= |text| && r == text[..|r|]
    ensures r == text || OccursAt(text, Separator, |r|)
    ensures forall j: nat :: j < |r| ==> !OccursAt(text, Separator, j)
    ensures (forall j: nat :: !OccursAt(text, Separator, j)) ==> r == text
  {
    match FirstOccurrence(text, Separator, 0)
    case Some(i) => text[..i]
    case None => text
  }

  /** Why a run stops: a path that cannot be read, text the parser rejects, or a crash in replay. */
  datatype Error = ReadError(path: string) | ParseError(path: string) | Crash(path: string)

  /** What the parser yields: the statements of the text, or a syntax error. */
  datatype Parsed = Statements(stmts: seq<Stmt>) | SyntaxError

  /** One file replayed onto the schema so far. */
  function ReplaySource(s: Snapshot, path: string, files: map<string, string>, parse: string -> Parsed): (r: Result<Snapshot, Error>)
    ensures path !in files ==> r == Failure(ReadError(path))
    ensures r.Failure? ==> r.error.path == path
    ensures r.Success? ==> s.fks <= r.value.fks
  {
    if path !in files then Failure(ReadError(path))
    else match parse(CutAtSeparator(files[path]))
      case SyntaxError => Failure(ParseError(path))
      case Statements(sts) =>
        match ApplyStmts(s, sts)
        case None => Failure(Crash(path))
        case Some(s') => Success(s')
  }

  /**
   * A readable file is cut at the separator before it is parsed: a syntax error there is a
   * parse error, a statement the replay crashes on is a crash, otherwise the replayed schema.
   */
  lemma ReplaySourceOutcome(s: Snapshot, path: string, files: map<string, string>, parse: string -> Parsed)
    requires path in files
    ensures parse(CutAtSeparator(files[path])).SyntaxError? ==> ReplaySource(s, path, files, parse) == Failure(ParseError(path))
    ensures parse(CutAtSeparator(files[path])).Statements? ==>
      var sts := parse(CutAtSeparator(files[path])).stmts;
      var r := ReplaySource(s, path, files, parse);
      && (r == Failure(Crash(path)) <==> exists i :: 0 <= i < |sts| && Crashes(sts[i]))
      && (r.Success? ==> Some(r.value) == ApplyStmts(s, sts))
      && (r.Success? || r == Failure(Crash(path)))
  {
    var parsed := parse(CutAtSeparator(files[path]));
    if parsed.Statements? {
      ApplyStmtsCrash(s, parsed.stmts);
    }
  }

  /** The files in the given order into one schema, starting empty; the first failure is the result. */
  function ReplayFiles(paths: seq<string>, files: map<string, string>, parse: string -> Parsed): (r: Result<Snapshot, Error>)
    ensures paths == [] ==> r == Success(Empty)
    ensures r.Failure? ==> r.error.path in paths
  {
    if paths == [] then Success(Empty)
    else match ReplayFiles(paths[..|paths| - 1], files, parse)
      case Failure(e) => Failure(e)
      case Success(s) => ReplaySource(s, paths[|paths| - 1], files, parse)
  }

  /** A run that succeeds has read every path it was given. */
  lemma {:induction false} SuccessReadsAll(paths: seq<string>, files: map<string, string>, parse: string -> Parsed)
    requires ReplayFiles(paths, files, parse).Success?
    ensures forall p :: p in paths ==> p in files
    decreases |paths|
  {
    if paths != [] {
      var pre := paths[..|paths| - 1];
      SuccessReadsAll(pre, files, parse);
      assert forall p :: p in paths ==> p in pre || p == paths[|paths| - 1];
    }
  }

  /** Every file before `j` replays successfully and file `j` fails; its error, which names it, is the error of the run. */
  predicate FailsFirstAt(paths: seq<string>, files: map<string, string>, parse: string -> Parsed, j: int)
  {
    && 0 <= j < |paths|
    && ReplayFiles(paths[..j], files, parse).Success?
    && ReplaySource(ReplayFiles(paths[..j], files, parse).value, paths[j], files, parse).Failure?
    && ReplayFiles(paths, files, parse).Failure?
    && ReplayFiles(paths, files, parse).error == ReplaySource(ReplayFiles(paths[..j], files, parse).value, paths[j], files, parse).error
    && ReplayFiles(paths, files, parse).error.path == paths[j]
  }

  /**
   * A run fails exactly at the first file that fails: every earlier file replays
   * successfully, and the run's error is that file's own.
   */
  lemma {:induction false} FirstErrorStops(paths: seq<string>, files: map<string, string>, parse: string -> Parsed)
    requires ReplayFiles(paths, files, parse).Failure?
    ensures exists j :: FailsFirstAt(paths, files, parse, j)
    decreases |paths|
  {
    var n := |paths|;
    var pre := paths[..n - 1];
    assert paths[..n - 1] == pre;
    if ReplayFiles(pre, files, parse).Failure? {
      FirstErrorStops(pre, files, parse);
      var j :| FailsFirstAt(pre, files, parse, j);
      assert pre[..j] == paths[..j];
      assert FailsFirstAt(paths, files, parse, j);
    } else {
      assert FailsFirstAt(paths, files, parse, n - 1);
    }
  }

  /** A path missing from the readable files makes the run fail, whatever follows it. */
  lemma MissingFileFails(paths: seq<string>, files: map<string, string>, parse: string -> Parsed, i: nat)
    requires i < |paths| && paths[i] !in files
    ensures ReplayFiles(paths, files, parse).Failure?
  {
    var upto := paths[..i + 1];
    assert upto[..i] == paths[..i] && upto[i] == paths[i];
    assert ReplayFiles(upto, files, parse).Failure?;
    FailurePersists(upto, paths[i + 1..], files, parse);
    assert upto + paths[i + 1..] == paths;
  }

  /**
   * parseFiles: one shared schema, the files replayed in order; on the first failure the
   * partial schema is discarded and only the error is returned.
   */
  method ParseFiles(paths: seq<string>, files: map<string, string>, parse: string -> Parsed) returns (r: Result<Snapshot, Error>)
    ensures r == ReplayFiles(paths, files, parse)
  {
    var m := new SchemaModel();
    for i := 0 to |paths|
      invariant ReplayFiles(paths[..i], files, parse) == Success(m.Snapshot())
    {
      ReplayFilesStep(paths, files, parse, i);
      var err := ReplayFile(m, paths[i], files, parse);
      if err.Some? {
        r := Failure(err.value);
        FailurePersists(paths[..i + 1], paths[i + 1..], files, parse);
        assert paths[..i + 1] + paths[i + 1..] == paths;
        return;
      }
    }
    assert paths[..|paths|] == paths;
    r := Success(m.Snapshot());
  }

  /** One more file: it is replayed onto the schema of those before it, unless they failed. */
  lemma ReplayFilesStep(paths: seq<string>, files: map<string, string>, parse: string -> Parsed, i: nat)
    requires i < |paths|
    ensures ReplayFiles(paths[..i + 1], files, parse) ==
      if ReplayFiles(paths[..i], files, parse).Failure? then ReplayFiles(paths[..i], files, parse)
      else ReplaySource(ReplayFiles(paths[..i], files, parse).value, paths[i], files, parse)
  {
    assert paths[..i + 1][..i] == paths[..i];
  }

  /** Once a file fails, later files do not change the result. */
  lemma {:induction false} FailurePersists(paths: seq<string>, more: seq<string>, files: map<string, string>, parse: string -> Parsed)
    requires ReplayFiles(paths, files, parse).Failure?
    ensures ReplayFiles(paths + more, files, parse) == ReplayFiles(paths, files, parse)
    decreases |more|
  {
    if more == [] {
      assert paths + more == paths;
    } else {
      var all := paths + more;
      assert all[..|all| - 1] == paths + more[..|more| - 1];
      FailurePersists(paths, more[..|more| - 1], files, parse);
    }
  }

  /** parseSQL: read, cut at the separator, parse and replay one file into the shared schema. */
  method ReplayFile(m: SchemaModel, path: string, files: map<string, string>, parse: string -> Parsed) returns (err: Option<Error>)
    modifies m
    ensures err.None? <==> ReplaySource(old(m.Snapshot()), path, files, parse).Success?
    ensures err.None? ==> m.Snapshot() == ReplaySource(old(m.Snapshot()), path, files, parse).value
    ensures err.Some? ==> err.value == ReplaySource(old(m.Snapshot()), path, files, parse).error
  {
    if path !in files {
      return Some(ReadError(path));
    }
    var up := CutAtSeparator(files[path]);
    var res := parse(up);
    if res.SyntaxError? {
      return Some(ParseError(path));
    }
    var ok := m.ReplayStmts(res.stmts);
    if !ok {
      return Some(Crash(path));
    }
    return None;
  }

  /** sort.Strings: insertion sort by adjacent swaps into ascending lexicographic order. */
  method SortStrings(a: array<string>)
    modifies a
    ensures Sorted(a[..]) && multiset(a[..]) == multiset(old(a[..]))
  {
    if a.Length == 0 {
      return;
    }
    for i := 1 to a.Length
      invariant Sorted(a[..i]) && multiset(a[..]) == multiset(old(a[..]))
    {
      SinkLast(a, i);
    }
    assert a[..a.Length] == a[..];
  }

  /** Moves `a[i]` down into the sorted prefix `a[..i]` by adjacent swaps. */
  method SinkLast(a: array<string>, i: nat)
    requires 0 < i < a.Length && Sorted(a[..i])
    modifies a
    ensures Sorted(a[..i + 1]) && multiset(a[..]) == multiset(old(a[..]))
  {
    var j := i;
    while j > 0 && !LexLeq(a[j - 1], a[j])
      invariant 0 <= j <= i
      invariant forall x, y :: 0 <= x < y <= i && y != j ==> LexLeq(a[x], a[y])
      invariant multiset(a[..]) == multiset(old(a[..]))
    {
      LexLeqTotal(a[j - 1], a[j]);
      a[j - 1], a[j] := a[j], a[j - 1];
      j := j - 1;
    }
    forall x, y | 0 <= x < y <= i
      ensures LexLeq(a[x], a[y])
    {
      if y == j && x < j - 1 {
        LexLeqTransitive(a[x], a[j - 1], a[j]);
      }
    }
  }

  /** run: the input paths are sorted in place, then replayed in that order. */
  method Run(paths: array<string>, files: map<string, string>, parse: string -> Parsed) returns (r: Result<Snapshot, Error>)
    modifies paths
    ensures Sorted(paths[..]) && multiset(paths[..]) == multiset(old(paths[..]))
    ensures r == ReplayFiles(paths[..], files, parse)
  {
    SortStrings(paths);
    r := ParseFiles(paths[..], files, parse);
  }

  /**
   * The result of a run depends only on the set of inputs (with multiplicity), not on the
   * order they were listed in: both orders sort to the same sequence.
   */
  lemma RunOrderIndependent(a: seq<string>, b: seq<string>, files: map<string, string>, parse: string -> Parsed)
    requires Sorted(a) && Sorted(b) && multiset(a) == multiset(b)
    ensures ReplayFiles(a, files, parse) == ReplayFiles(b, files, parse)
  {
    SortedUnique(a, b);
  }
}
