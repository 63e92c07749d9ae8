/** The main loop of both generators over a modelled filesystem: for each
    listed file in order, read it, transform it, write it under its new
    name, and stop at the first read or write that fails. */
module Driver {
  import opened GoStrings
  import opened LineSearch
  import opened Names
  import opened BuildTags
  import opened FileRewrite

  /** Why a run stopped: the failure `log.Fatal` reports. */
  datatype Failure = ReadFailed(path: string) | WriteFailed(path: string)

  datatype Outcome = Done | Fatal(failure: Failure)

  /** The filesystem after some steps, the names logged as written, and
      whether the run is still going. */
  datatype RunState = RunState(files: map<string, Bytes>, wrote: seq<string>, outcome: Outcome)

  /** What the loop needs to know of a generator: the two directories, the
      renaming and the transformation of contents. */
  datatype Job = Job(srcDir: string, dstDir: string, rename: string -> string, transform: Bytes -> Bytes)

  /** The job of a generator: both rename with `NewName`. */
  function JobOf(g: Generator): (job: Job)
    requires ByteRule(g.rule)
    ensures job.srcDir == g.srcDir && job.dstDir == g.dstDir
    ensures forall f :: job.rename(f) == NewName(f)
    ensures forall d :: job.transform(d) == Transform(g, d)
  {
    Job(g.srcDir, g.dstDir, NewName, d => Transform(g, d))
  }

  /** Where a listed file is read from (the directory joined with the name). */
  function SourcePath(job: Job, filename: string): string
  {
    job.srcDir + "/" + filename
  }

  /** Where its rewritten contents go: `<dir>/<newname>.go`. */
  function TargetPath(job: Job, filename: string): string
  {
    job.dstDir + "/" + job.rename(filename) + ".go"
  }

  /** One iteration: read the source (it sees earlier writes), transform,
      write the target. */
  function Step(job: Job, unwritable: set<string>, st: RunState, filename: string): RunState
  {
    var src := SourcePath(job, filename);
    var dst := TargetPath(job, filename);
    if src !in st.files then st.(outcome := Fatal(ReadFailed(src)))
    else if dst in unwritable then st.(outcome := Fatal(WriteFailed(dst)))
    else RunState(st.files[dst := job.transform(st.files[src])], st.wrote + [job.rename(filename)], Done)
  }

  /** A whole run over `names`, starting from `files`; writes to paths in
      `unwritable` fail. */
  function Run(job: Job, names: seq<string>, files: map<string, Bytes>, unwritable: set<string>): RunState
    decreases |names|
  {
    if |names| == 0 then RunState(files, [], Done)
    else
      var st := Run(job, names[..|names| - 1], files, unwritable);
      if st.outcome.Fatal? then st else Step(job, unwritable, st, names[|names| - 1])
  }

  // ------------------------------------------------------------------
  // The filesystem and the loop
  // ------------------------------------------------------------------

  /** Files by path; writes to the paths in `unwritable` fail. */
  class FileSystem {
    var files: map<string, Bytes>
    const unwritable: set<string>

    constructor (files0: map<string, Bytes>, unwritable0: set<string>)
      ensures files == files0 && unwritable == unwritable0
    {
      files := files0;
      unwritable := unwritable0;
    }

    /** `os.ReadFile`: the contents, or a failure for a missing file. */
    method ReadFile(path: string) returns (data: Bytes, ok: bool)
      ensures ok <==> path in files
      ensures ok ==> data == files[path]
    {
      ok := path in files;
      data := if ok then files[path] else [];
    }

    /** `os.WriteFile`: creates or replaces the file, or fails. */
    method WriteFile(path: string, data: Bytes) returns (ok: bool)
      modifies this
      ensures ok <==> path !in unwritable
      ensures files == if ok then old(files)[path := data] else old(files)
    {
      ok := path !in unwritable;
      if ok {
        files := files[path := data];
      }
    }
  }

  /** The loop of `main`: the state it leaves and the names it logs are
      those of `Run`. */
  method Generate(fs: FileSystem, g: Generator, names: seq<string>) returns (wrote: seq<string>, outcome: Outcome)
    requires ByteRule(g.rule)
    modifies fs
    ensures RunState(fs.files, wrote, outcome) == Run(JobOf(g), names, old(fs.files), fs.unwritable)
  {
    var job := JobOf(g);
    wrote := [];
    for i := 0 to |names|
      invariant RunState(fs.files, wrote, Done) == Run(job, names[..i], old(fs.files), fs.unwritable)
    {
      var filename := names[i];
      assert names[..i + 1][..i] == names[..i];
      var newname := NewName(filename);
      var src := g.srcDir + "/" + filename;
      var data, ok := fs.ReadFile(src);
      if !ok {
        outcome := Fatal(ReadFailed(src));
        RunStopped(job, names, old(fs.files), fs.unwritable, i + 1);
        return;
      }
      data := TransformFile(g, data);
      var dst := g.dstDir + "/" + newname + ".go";
      var written := fs.WriteFile(dst, data);
      if !written {
        outcome := Fatal(WriteFailed(dst));
        RunStopped(job, names, old(fs.files), fs.unwritable, i + 1);
        return;
      }
      wrote := wrote + [newname];
    }
    assert names[..|names|] == names;
    outcome := Done;
  }

  /** The body of the loop between reading and writing: the build-line
      rewrite, then (for wasm/mkunix.go) the import rewrite. */
  method TransformFile(g: Generator, data: Bytes) returns (result: Bytes)
    requires ByteRule(g.rule)
    ensures result == Transform(g, data)
  {
    LiteralBytes();
    result := data;
    var line, found := FindLineByPrefix(data, BuildPrefix);
    if found {
      var tags := CollectTags(g.rule, line);
      var newTags := BuildPrefix + " " + Join(tags, " && ");
      NewBuildLineBytes(g.rule, line);
      result := ReplaceFirst(result, BytesOf(line), BytesOf(newTags));
    }
    assert result == RewriteBuildLine(g.rule, data);
    if g.rewriteImport {
      ImportBytes();
      result := ReplaceFirst(result, BytesOf(SyscallImport), BytesOf(WasmSyscallImport));
    }
  }

  // ------------------------------------------------------------------
  // What a run does
  // ------------------------------------------------------------------

  /** Fail-fast: once a prefix of the list has failed, the rest of the list
      changes nothing, so no later file is read or written. */
  lemma {:induction false} RunStopped(job: Job, names: seq<string>, files: map<string, Bytes>,
                                      unwritable: set<string>, i: nat)
    requires i <= |names|
    requires Run(job, names[..i], files, unwritable).outcome.Fatal?
    ensures Run(job, names, files, unwritable) == Run(job, names[..i], files, unwritable)
    decreases |names| - i
  {
    if i < |names| {
      var init := names[..|names| - 1];
      assert init[..i] == names[..i];
      RunStopped(job, init, files, unwritable, i);
    } else {
      assert names[..i] == names;
    }
  }

  /** The names logged so far are those of a prefix of the list, each
      under its new name; a failure names the path of the next file, read
      or written. */
  lemma {:induction false} RunProgress(job: Job, names: seq<string>, files: map<string, Bytes>,
                                       unwritable: set<string>)
    ensures var st := Run(job, names, files, unwritable);
            && |st.wrote| <= |names|
            && (forall k | 0 <= k < |st.wrote| :: st.wrote[k] == job.rename(names[k]))
            && (st.outcome == Done ==> |st.wrote| == |names|)
            && (st.outcome.Fatal? ==>
                  && |st.wrote| < |names|
                  && (|| st.outcome.failure == ReadFailed(SourcePath(job, names[|st.wrote|]))
                      || st.outcome.failure == WriteFailed(TargetPath(job, names[|st.wrote|]))))
    decreases |names|
  {
    if |names| > 0 {
      var init := names[..|names| - 1];
      RunProgress(job, init, files, unwritable);
      assert forall k | 0 <= k < |init| :: init[k] == names[k];
    }
  }

  /** A run writes only targets of listed files: any other path keeps its
      contents, and no file disappears. */
  lemma {:induction false} RunWritesOnlyTargets(job: Job, names: seq<string>, files: map<string, Bytes>,
                                                unwritable: set<string>, p: string)
    requires forall k | 0 <= k < |names| :: TargetPath(job, names[k]) != p
    ensures var st := Run(job, names, files, unwritable);
            && files.Keys <= st.files.Keys
            && (p in files ==> p in st.files && st.files[p] == files[p])
            && (p !in files ==> p !in st.files)
    decreases |names|
  {
    if |names| > 0 {
      RunWritesOnlyTargets(job, names[..|names| - 1], files, unwritable, p);
    }
  }

  /** `st` is the end of a run over `names` that wrote everything: it went
      to the end, logged every new name, and each target holds the
      transform of its source as it was in `files`. */
  ghost predicate Completed(job: Job, names: seq<string>, files: map<string, Bytes>, st: RunState)
  {
    && st.outcome == Done
    && |st.wrote| == |names|
    && (forall k | 0 <= k < |names| :: st.wrote[k] == job.rename(names[k]))
    && forall k | 0 <= k < |names| ::
         SourcePath(job, names[k]) in files && TargetPath(job, names[k]) in st.files &&
         st.files[TargetPath(job, names[k])] == job.transform(files[SourcePath(job, names[k])])
  }

  /** When every source is there to read, every target is writable, no two
      listed files share a target and no target is a source, the run goes
      to the end, logs every new name, and each target holds the transform
      of its source. */
  lemma {:induction false} RunSucceeds(job: Job, names: seq<string>, files: map<string, Bytes>,
                                       unwritable: set<string>)
    requires forall k | 0 <= k < |names| :: SourcePath(job, names[k]) in files
    requires forall k | 0 <= k < |names| :: TargetPath(job, names[k]) !in unwritable
    requires forall k, l | 0 <= k < l < |names| :: TargetPath(job, names[k]) != TargetPath(job, names[l])
    requires forall k, l | 0 <= k < |names| && 0 <= l < |names| :: TargetPath(job, names[k]) != SourcePath(job, names[l])
    ensures Completed(job, names, files, Run(job, names, files, unwritable))
    decreases |names|
  {
    if |names| > 0 {
      var n := |names| - 1;
      var init := names[..n];
      assert forall k | 0 <= k < n :: init[k] == names[k];
      RunSucceeds(job, init, files, unwritable);
      var src := SourcePath(job, names[n]);
      RunWritesOnlyTargets(job, init, files, unwritable, src);
      assert names == init + [names[n]];
      StepCompletes(job, unwritable, files, init, names[n], Run(job, init, files, unwritable));
    }
  }

  /** One more step that reads an untouched source and writes a fresh
      target extends a completed run by one file. */
  lemma StepCompletes(job: Job, unwritable: set<string>, files: map<string, Bytes>,
                      init: seq<string>, name: string, st: RunState)
    requires Completed(job, init, files, st)
    requires SourcePath(job, name) in files && SourcePath(job, name) in st.files
    requires st.files[SourcePath(job, name)] == files[SourcePath(job, name)]
    requires TargetPath(job, name) !in unwritable
    requires forall k | 0 <= k < |init| :: TargetPath(job, init[k]) != TargetPath(job, name)
    ensures Completed(job, init + [name], files, Step(job, unwritable, st, name))
  {
    var names := init + [name];
    assert forall k | 0 <= k < |init| :: names[k] == init[k];
  }

  /** A listed source that is missing, and that no earlier file of the list
      writes, ends the run in a failure at that file or before it: nothing
      after it is read or written. */
  lemma RunFailsOnMissing(job: Job, names: seq<string>, files: map<string, Bytes>,
                          unwritable: set<string>, i: nat)
    requires i < |names| && SourcePath(job, names[i]) !in files
    requires forall k | 0 <= k < i :: TargetPath(job, names[k]) != SourcePath(job, names[i])
    ensures var st := Run(job, names, files, unwritable);
            && st == Run(job, names[..i + 1], files, unwritable)
            && st.outcome.Fatal? && |st.wrote| <= i
            && (st.outcome.failure == ReadFailed(SourcePath(job, names[i])) || |st.wrote| < i)
  {
    var pre := names[..i];
    assert names[..i + 1] == pre + [names[i]];
    assert forall k | 0 <= k < i :: pre[k] == names[k];
    MissingStops(job, pre, names[i], files, unwritable);
    RunStopped(job, names, files, unwritable, i + 1);
  }

  /** The step for a missing source that no earlier file writes fails, at
      this read or before it. */
  lemma MissingStops(job: Job, pre: seq<string>, name: string, files: map<string, Bytes>,
                     unwritable: set<string>)
    requires SourcePath(job, name) !in files
    requires forall k | 0 <= k < |pre| :: TargetPath(job, pre[k]) != SourcePath(job, name)
    ensures var st := Run(job, pre + [name], files, unwritable);
            && st.outcome.Fatal? && |st.wrote| <= |pre|
            && (st.outcome.failure == ReadFailed(SourcePath(job, name)) || |st.wrote| < |pre|)
  {
    assert (pre + [name])[..|pre|] == pre;
    RunProgress(job, pre, files, unwritable);
    RunWritesOnlyTargets(job, pre, files, unwritable, SourcePath(job, name));
  }

  /** A listed target that cannot be written ends the run in a failure at
      that file (its read or its write) or before it. */
  lemma RunFailsOnUnwritable(job: Job, names: seq<string>, files: map<string, Bytes>,
                             unwritable: set<string>, i: nat)
    requires i < |names| && TargetPath(job, names[i]) in unwritable
    ensures var st := Run(job, names, files, unwritable);
            && st == Run(job, names[..i + 1], files, unwritable)
            && st.outcome.Fatal? && |st.wrote| <= i
            && (|| st.outcome.failure == WriteFailed(TargetPath(job, names[i]))
                || st.outcome.failure == ReadFailed(SourcePath(job, names[i]))
                || |st.wrote| < i)
  {
    var pre := names[..i];
    assert names[..i + 1] == pre + [names[i]];
    UnwritableStops(job, pre, names[i], files, unwritable);
    RunStopped(job, names, files, unwritable, i + 1);
  }

  /** The step for an unwritable target fails, at its read or write or
      before it. */
  lemma UnwritableStops(job: Job, pre: seq<string>, name: string, files: map<string, Bytes>,
                        unwritable: set<string>)
    requires TargetPath(job, name) in unwritable
    ensures var st := Run(job, pre + [name], files, unwritable);
            && st.outcome.Fatal? && |st.wrote| <= |pre|
            && (|| st.outcome.failure == WriteFailed(TargetPath(job, name))
                || st.outcome.failure == ReadFailed(SourcePath(job, name))
                || |st.wrote| < |pre|)
  {
    assert (pre + [name])[..|pre|] == pre;
    RunProgress(job, pre, files, unwritable);
  }

  // ------------------------------------------------------------------
  // What the file lists must satisfy
  // ------------------------------------------------------------------

  /** Two targets are the same path only for the same new name. */
  lemma TargetNames(job: Job, f1: string, f2: string)
    ensures TargetPath(job, f1) == TargetPath(job, f2) ==> job.rename(f1) == job.rename(f2)
  {
    var d, n1, n2 := job.dstDir + "/", job.rename(f1), job.rename(f2);
    if TargetPath(job, f1) == TargetPath(job, f2) {
      assert TargetPath(job, f1) == d + n1 + ".go" && TargetPath(job, f2) == d + n2 + ".go";
      assert |n1| == |n2|;
      assert (d + n1 + ".go")[|d|..|d| + |n1|] == n1;
      assert (d + n2 + ".go")[|d|..|d| + |n2|] == n2;
    }
  }

  /** Distinct simple names renamed by `NewName` have distinct targets: no
      write of a run overwrites another. */
  lemma TargetsDistinct(job: Job, names: seq<string>)
    requires forall f :: job.rename(f) == NewName(f)
    requires forall k | 0 <= k < |names| :: SimpleName(names[k])
    requires forall k, l | 0 <= k < l < |names| :: names[k] != names[l]
    ensures forall k, l | 0 <= k < l < |names| :: TargetPath(job, names[k]) != TargetPath(job, names[l])
  {
    forall k, l | 0 <= k < l < |names|
      ensures TargetPath(job, names[k]) != TargetPath(job, names[l])
    {
      TargetNames(job, names[k], names[l]);
      NewNameInjective(names[k], names[l]);
    }
  }

  /** Reading and writing the same directory, no target of a simple name is
      the source of another: new names hold a 'j', simple names none. */
  lemma TargetsInPlace(job: Job, names: seq<string>)
    requires job.srcDir == job.dstDir
    requires forall f :: job.rename(f) == NewName(f)
    requires forall k | 0 <= k < |names| :: SimpleName(names[k])
    ensures forall k, l | 0 <= k < |names| && 0 <= l < |names| ::
              TargetPath(job, names[k]) != SourcePath(job, names[l])
  {
    forall k, l | 0 <= k < |names| && 0 <= l < |names|
      ensures TargetPath(job, names[k]) != SourcePath(job, names[l])
    {
      NewNameNotSource(names[k], names[l]);
      PathsApart(job.srcDir, job.rename(names[k]), names[l]);
    }
  }

  /** In one directory, distinct file names give distinct paths. */
  lemma PathsApart(d: string, n: string, f: string)
    requires n + ".go" != f
    ensures d + "/" + n + ".go" != d + "/" + f
  {
    var p, t := d + "/", n + ".go";
    assert d + "/" + n + ".go" == p + t;
    assert (p + t)[|p|..] == t && (p + f)[|p|..] == f;
  }

  /** A source under a longer directory is never a target whose new name
      holds no '/': the source has a '/' right after its directory, where
      the target is already inside its file name. */
  lemma TargetsBelowSources(job: Job, names: seq<string>)
    requires |job.srcDir| > |job.dstDir|
    requires forall k | 0 <= k < |names| :: '/' !in job.rename(names[k])
    ensures forall k, l | 0 <= k < |names| && 0 <= l < |names| ::
              TargetPath(job, names[k]) != SourcePath(job, names[l])
  {
    forall k, l | 0 <= k < |names| && 0 <= l < |names|
      ensures TargetPath(job, names[k]) != SourcePath(job, names[l])
    {
      SlashApart(job.srcDir, names[l], job.dstDir, job.rename(names[k]));
    }
  }

  /** `d2/n.go` is not `d1/f` when `d1` is longer than `d2` and `n` holds
      no '/'. */
  lemma SlashApart(d1: string, f: string, d2: string, n: string)
    requires |d1| > |d2| && '/' !in n
    ensures d2 + "/" + n + ".go" != d1 + "/" + f
  {
    var s, t := d1 + "/" + f, d2 + "/" + n + ".go";
    assert s[|d1|] == '/';
    if |t| > |d1| {
      var i := |d1| - |d2| - 1;
      assert t == d2 + "/" + (n + ".go");
      assert t[|d1|] == (n + ".go")[i];
      if i < |n| {
        assert (n + ".go")[i] == n[i];
      }
    } else {
      assert |t| < |s|;
    }
  }
}
