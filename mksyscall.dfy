/** wasm/mksyscall.go: copies the Linux/arm64 files of Go's own `syscall`
    package into `./syscall`, renamed and with new build lines for js/wasm. */
module Mksyscall {
  import opened GoStrings
  import opened LineSearch
  import opened Names
  import opened BuildTags
  import opened FileRewrite
  import opened Driver

  /** "linux" or "unix" bring "js"; four specials are copied; an empty
      choice falls back to "js". */
  const SyscallRule := TagRule(["linux", "unix"], ["!asan", "!msan", "!386", "!arm"], true)

  lemma SyscallRuleBytes()
    ensures ByteRule(SyscallRule)
  {
  }

  /** The generator, for the GOROOT that `go env GOROOT` reports (trimmed):
      it reads `<goroot>/src/syscall` and writes `./syscall`, and leaves
      imports alone. */
  function Mksyscall(goroot: string): (g: Generator)
    ensures ByteRule(g.rule)
  {
    SyscallRuleBytes();
    Generator(SyscallRule, goroot + "/src/syscall", "./syscall", false)
  }

  /** The files copied, in the order they are processed. */
  const SyscallSrcFiles: seq<string> := [
    "asan0.go",
    "dirent.go",
    "endian_little.go",
    "env_unix.go",
    "exec_linux.go",
    "exec_unix.go",
    "flock_linux.go",
    "forkpipe2.go",
    "lsf_linux.go",
    "msan0.go",
    "net.go",
    "netlink_linux.go",
    "rlimit.go",
    "rlimit_stub.go",
    "setuidgid_linux.go",
    "sockcmsg_linux.go",
    "sockcmsg_unix.go",
    "sockcmsg_unix_other.go",
    "syscall.go",
    "syscall_linux.go",
    "syscall_linux_accept4.go",
    "syscall_linux_arm64.go",
    "syscall_unix.go",
    "time_nofake.go",
    "timestruct.go",
    "zerrors_linux_arm64.go",
    "zsyscall_linux_arm64.go",
    "zsysnum_linux_arm64.go",
    "ztypes_linux_arm64.go"
  ]

  /** `main` after GOROOT is known: the loop over the list. */
  method GenerateSyscall(fs: FileSystem, goroot: string) returns (wrote: seq<string>, outcome: Outcome)
    modifies fs
    ensures RunState(fs.files, wrote, outcome) == Run(JobOf(Mksyscall(goroot)), SyscallSrcFiles, old(fs.files), fs.unwritable)
  {
    wrote, outcome := Generate(fs, Mksyscall(goroot), SyscallSrcFiles);
  }

  // ------------------------------------------------------------------
  // The list of files
  // ------------------------------------------------------------------

  // The facts about the list below are split into chunks of a few names
  // each only to keep every proof obligation small for the solver; the
  // chunks carry no content beyond the lemma they are combined into.

  /** Each listed name is simple, a few names at a time. */
  lemma SyscallSimple0()
    ensures forall k | 0 <= k < 2 :: SimpleName(SyscallSrcFiles[k])
  {
  }

  lemma SyscallSimple1()
    ensures forall k | 2 <= k < 4 :: SimpleName(SyscallSrcFiles[k])
  {
  }

  lemma SyscallSimple2()
    ensures forall k | 4 <= k < 6 :: SimpleName(SyscallSrcFiles[k])
  {
  }

  lemma SyscallSimple3()
    ensures forall k | 6 <= k < 8 :: SimpleName(SyscallSrcFiles[k])
  {
  }

  lemma SyscallSimple4()
    ensures forall k | 8 <= k < 11 :: SimpleName(SyscallSrcFiles[k])
  {
  }

  lemma SyscallSimple5()
    ensures forall k | 11 <= k < 13 :: SimpleName(SyscallSrcFiles[k])
  {
  }

  lemma SyscallSimple6()
    ensures forall k | 13 <= k < 14 :: SimpleName(SyscallSrcFiles[k])
  {
  }

  lemma SyscallSimple7()
    ensures forall k | 14 <= k < 15 :: SimpleName(SyscallSrcFiles[k])
  {
  }

  lemma SyscallSimple8()
    ensures forall k | 15 <= k < 16 :: SimpleName(SyscallSrcFiles[k])
  {
  }

  lemma SyscallSimple9()
    ensures forall k | 16 <= k < 17 :: SimpleName(SyscallSrcFiles[k])
  {
  }

  lemma SyscallSimple10()
    ensures forall k | 17 <= k < 18 :: SimpleName(SyscallSrcFiles[k])
  {
  }

  lemma SyscallSimple11()
    ensures forall k | 18 <= k < 20 :: SimpleName(SyscallSrcFiles[k])
  {
  }

  lemma SyscallSimple12()
    ensures forall k | 20 <= k < 21 :: SimpleName(SyscallSrcFiles[k])
  {
  }

  lemma SyscallSimple13()
    ensures forall k | 21 <= k < 22 :: SimpleName(SyscallSrcFiles[k])
  {
  }

  lemma SyscallSimple14()
    ensures forall k | 22 <= k < 24 :: SimpleName(SyscallSrcFiles[k])
  {
  }

  lemma SyscallSimple15()
    ensures forall k | 24 <= k < 25 :: SimpleName(SyscallSrcFiles[k])
  {
  }

  lemma SyscallSimple16()
    ensures forall k | 25 <= k < 26 :: SimpleName(SyscallSrcFiles[k])
  {
  }

  lemma SyscallSimple17()
    ensures forall k | 26 <= k < 27 :: SimpleName(SyscallSrcFiles[k])
  {
  }

  lemma SyscallSimple18()
    ensures forall k | 27 <= k < 28 :: SimpleName(SyscallSrcFiles[k])
  {
  }

  lemma SyscallSimple19()
    ensures forall k | 28 <= k < 29 :: SimpleName(SyscallSrcFiles[k])
  {
  }

  lemma SyscallDistinct00()
    ensures forall k, l | 0 <= k < l < 10 :: SyscallSrcFiles[k] != SyscallSrcFiles[l]
  {
  }

  lemma SyscallDistinct01()
    ensures forall k, l | 0 <= k < 10 && 10 <= l < 20 :: SyscallSrcFiles[k] != SyscallSrcFiles[l]
  {
  }

  lemma SyscallDistinct02()
    ensures forall k, l | 0 <= k < 10 && 20 <= l < 29 :: SyscallSrcFiles[k] != SyscallSrcFiles[l]
  {
  }

  lemma SyscallDistinct11()
    ensures forall k, l | 10 <= k < l < 20 :: SyscallSrcFiles[k] != SyscallSrcFiles[l]
  {
  }

  lemma SyscallDistinct12()
    ensures forall k, l | 10 <= k < 20 && 20 <= l < 29 :: SyscallSrcFiles[k] != SyscallSrcFiles[l]
  {
  }

  lemma SyscallDistinct22()
    ensures forall k, l | 20 <= k < l < 29 :: SyscallSrcFiles[k] != SyscallSrcFiles[l]
  {
  }

  /** Every listed name is a simple one: a ".go" file without 'j', 'w' or
      "__". */
  lemma SyscallNamesSimple()
    ensures forall k | 0 <= k < |SyscallSrcFiles| :: SimpleName(SyscallSrcFiles[k])
  {
    SyscallSimple0();
    SyscallSimple1();
    SyscallSimple2();
    SyscallSimple3();
    SyscallSimple4();
    SyscallSimple5();
    SyscallSimple6();
    SyscallSimple7();
    SyscallSimple8();
    SyscallSimple9();
    SyscallSimple10();
    SyscallSimple11();
    SyscallSimple12();
    SyscallSimple13();
    SyscallSimple14();
    SyscallSimple15();
    SyscallSimple16();
    SyscallSimple17();
    SyscallSimple18();
    SyscallSimple19();
  }

  /** No name is listed twice. */
  lemma SyscallNamesDistinct()
    ensures forall k, l | 0 <= k < l < |SyscallSrcFiles| :: SyscallSrcFiles[k] != SyscallSrcFiles[l]
  {
    SyscallDistinct00();
    SyscallDistinct01();
    SyscallDistinct02();
    SyscallDistinct11();
    SyscallDistinct12();
    SyscallDistinct22();
  }

  /** No listed name holds a '/', a few names at a time. */
  lemma SyscallNoSlash0()
    ensures forall k | 0 <= k < 5 :: '/' !in SyscallSrcFiles[k]
  {
  }

  lemma SyscallNoSlash1()
    ensures forall k | 5 <= k < 10 :: '/' !in SyscallSrcFiles[k]
  {
  }

  lemma SyscallNoSlash2()
    ensures forall k | 10 <= k < 15 :: '/' !in SyscallSrcFiles[k]
  {
  }

  lemma SyscallNoSlash3()
    ensures forall k | 15 <= k < 19 :: '/' !in SyscallSrcFiles[k]
  {
  }

  lemma SyscallNoSlash4()
    ensures forall k | 19 <= k < 22 :: '/' !in SyscallSrcFiles[k]
  {
  }

  lemma SyscallNoSlash5()
    ensures forall k | 22 <= k < 25 :: '/' !in SyscallSrcFiles[k]
  {
  }

  lemma SyscallNoSlash6()
    ensures forall k | 25 <= k < 27 :: '/' !in SyscallSrcFiles[k]
  {
  }

  lemma SyscallNoSlash7()
    ensures forall k | 27 <= k < 29 :: '/' !in SyscallSrcFiles[k]
  {
  }

  /** Every listed name is a bare file name, without a '/'. */
  lemma SyscallNamesNoSlash()
    ensures forall k | 0 <= k < |SyscallSrcFiles| :: '/' !in SyscallSrcFiles[k]
  {
    SyscallNoSlash0();
    SyscallNoSlash1();
    SyscallNoSlash2();
    SyscallNoSlash3();
    SyscallNoSlash4();
    SyscallNoSlash5();
    SyscallNoSlash6();
    SyscallNoSlash7();
  }

  /** The new names of the list are pairwise distinct. */
  lemma SyscallNewNamesDistinct()
    ensures forall k, l | 0 <= k < l < |SyscallSrcFiles| ::
              NewName(SyscallSrcFiles[k]) != NewName(SyscallSrcFiles[l])
  {
    SyscallNamesSimple();
    SyscallNamesDistinct();
    forall k, l | 0 <= k < l < |SyscallSrcFiles|
      ensures NewName(SyscallSrcFiles[k]) != NewName(SyscallSrcFiles[l])
    {
      NewNameInjective(SyscallSrcFiles[k], SyscallSrcFiles[l]);
    }
  }

  // ------------------------------------------------------------------
  // A run over the list
  // ------------------------------------------------------------------

  /** Where the job of the generator reads and writes. */
  lemma SyscallPaths(goroot: string, f: string)
    ensures SourcePath(JobOf(Mksyscall(goroot)), f) == goroot + "/src/syscall/" + f
    ensures TargetPath(JobOf(Mksyscall(goroot)), f) == "./syscall/" + NewName(f) + ".go"
  {
  }

  /** With every listed file readable and every target writable, the run
      writes each file once, under its new name, with the transformed
      contents, and logs every new name in list order. For every GOROOT no
      target is a source: a source has a '/' right after
      `<goroot>/src/syscall`, longer than `./syscall`, and no new name
      holds a '/'. */
  lemma SyscallRunSucceeds(goroot: string, files: map<string, Bytes>, unwritable: set<string>)
    requires var job := JobOf(Mksyscall(goroot));
             forall k | 0 <= k < |SyscallSrcFiles| :: SourcePath(job, SyscallSrcFiles[k]) in files
    requires var job := JobOf(Mksyscall(goroot));
             forall k | 0 <= k < |SyscallSrcFiles| :: TargetPath(job, SyscallSrcFiles[k]) !in unwritable
    ensures var job := JobOf(Mksyscall(goroot));
            var st := Run(job, SyscallSrcFiles, files, unwritable);
            && st.outcome == Done
            && |st.wrote| == |SyscallSrcFiles|
            && (forall k | 0 <= k < |SyscallSrcFiles| :: st.wrote[k] == NewName(SyscallSrcFiles[k]))
            && forall k | 0 <= k < |SyscallSrcFiles| ::
                 var target := TargetPath(job, SyscallSrcFiles[k]);
                 && target in st.files
                 && st.files[target] == Transform(Mksyscall(goroot), files[SourcePath(job, SyscallSrcFiles[k])])
  {
    var job := JobOf(Mksyscall(goroot));
    SyscallNamesSimple();
    SyscallNamesDistinct();
    TargetsDistinct(job, SyscallSrcFiles);
    SyscallNewNamesNoSlash(job);
    TargetsBelowSources(job, SyscallSrcFiles);
    RunSucceeds(job, SyscallSrcFiles, files, unwritable);
  }

  /** No new name of the list holds a '/'. */
  lemma SyscallNewNamesNoSlash(job: Job)
    requires forall f :: job.rename(f) == NewName(f)
    ensures forall k | 0 <= k < |SyscallSrcFiles| :: '/' !in job.rename(SyscallSrcFiles[k])
  {
    SyscallNamesNoSlash();
    forall k | 0 <= k < |SyscallSrcFiles|
      ensures '/' !in job.rename(SyscallSrcFiles[k])
    {
      NoSlashInNewName(SyscallSrcFiles[k]);
    }
  }

  // ------------------------------------------------------------------
  // Names
  // ------------------------------------------------------------------

  /** Both tokens replaced: "syscall_linux_arm64.go" becomes "syscall_js_wasm". */
  lemma RenameLinuxArm64(f: string)
    requires f == "syscall_linux_arm64.go"
    ensures NewName(f) == "syscall_js_wasm"
  {
    var a, b, c := f[..8], f[13..14], f[19..19];
    ArmPieces(f, a, b, c);
    Regroup(a, "linux", b, "arm64", c);
    OccurrenceAtMark(a, "linux", b + "arm64" + c, 4);
    OccurrenceAtMark(a + "linux" + b, "arm64", c, 4);
    NameWithPlatformAndArch(a, b, c);
  }

  /** The pieces of "syscall_linux_arm64.go" around its two tokens: only the
      token itself holds its last letter. */
  lemma ArmPieces(f: string, a: string, b: string, c: string)
    requires f == "syscall_linux_arm64.go" && a == f[..8] && b == f[13..14] && c == f[19..19]
    ensures f == a + "linux" + b + "arm64" + c + ".go" && a + "js" + b + "wasm" + c == "syscall_js_wasm"
    ensures 'x' !in a && 'x' !in b + "arm64" + c
    ensures '4' !in a + "linux" + b && '4' !in c
  {
  }

  /** "syscall_linux_accept4.go" becomes "syscall_js_accept4". */
  lemma RenameLinuxAccept4(f: string)
    requires f == "syscall_linux_accept4.go"
    ensures NewName(f) == "syscall_js_accept4"
  {
    var a, b := f[..8], f[13..21];
    AcceptPieces(f, a, b);
    OccurrenceAtMark(a, "linux", b, 4);
    MissingElement(a + "linux" + b, "arm64", '6');
    NameWithPlatform(a, b);
  }

  /** The pieces of "syscall_linux_accept4.go" around its token. */
  lemma AcceptPieces(f: string, a: string, b: string)
    requires f == "syscall_linux_accept4.go" && a == f[..8] && b == f[13..21]
    ensures f == a + "linux" + b + ".go" && a + "js" + b == "syscall_js_accept4"
    ensures 'x' !in a && 'x' !in b && '6' !in a + "linux" + b
  {
  }

  /** A name without "linux" is marked: "asan0.go" becomes "asan0__js". */
  lemma RenameMarked(f: string)
    requires f == "asan0.go"
    ensures NewName(f) == "asan0__js"
  {
    var stem := f[..5];
    MarkedPieces(f, stem);
    MissingElement(stem, "linux", 'x');
    MissingElement(stem, "arm64", '6');
    NameWithoutTokens(stem);
  }

  /** The stem of "asan0.go" lacks an 'x' and a '6'. */
  lemma MarkedPieces(f: string, stem: string)
    requires f == "asan0.go" && stem == f[..5]
    ensures f == stem + ".go" && stem + "__js" == "asan0__js"
    ensures 'x' !in stem && '6' !in stem
  {
  }

  // ------------------------------------------------------------------
  // Build lines
  // ------------------------------------------------------------------

  /** Which tags the rule chooses: "js" for "linux" or "unix" (or when
      nothing matched), "wasm" for "arm64", and each special for itself. */
  lemma SyscallTags(line: string, t: string)
    ensures t in Tags(SyscallRule, line) <==>
      || (t == "js" && (Contains(line, "linux") || Contains(line, "unix") || |Matched(SyscallRule, line)| == 0))
      || (t == "wasm" && Contains(line, "arm64"))
      || (t in ["!asan", "!msan", "!386", "!arm"] && Contains(line, t))
  {
    TagsMembers(SyscallRule, line, t);
    assert PlatformMatch(SyscallRule.platforms, line) <==> Contains(line, "linux") || Contains(line, "unix") by {
      assert SyscallRule.platforms[0] == "linux" && SyscallRule.platforms[1] == "unix";
    }
  }

  /** The tags come in the rule's order: "js", "wasm", then the specials
      (the fallback "js" included). */
  lemma SyscallTagsOrder(line: string)
    ensures Subsequence(Tags(SyscallRule, line), ["js", "wasm", "!asan", "!msan", "!386", "!arm"])
  {
    TagsInOrder(SyscallRule, line);
    assert ["js", "wasm"] + SyscallRule.specials == ["js", "wasm", "!asan", "!msan", "!386", "!arm"];
  }

  /** The list never comes out empty: a line with none of the tokens
      becomes "//go:build js". */
  lemma SyscallFallback(line: string)
    requires !Contains(line, "linux") && !Contains(line, "unix") && !Contains(line, "arm64")
    requires !Contains(line, "!asan") && !Contains(line, "!msan") && !Contains(line, "!386") && !Contains(line, "!arm")
    ensures NewBuildLine(SyscallRule, line) == "//go:build js"
  {
    assert !PlatformMatch(SyscallRule.platforms, line) by {
      assert SyscallRule.platforms[0] == "linux" && SyscallRule.platforms[1] == "unix";
    }
    SyscallPresent(line);
    assert |Matched(SyscallRule, line)| == 0;
    NothingMatched(SyscallRule, line);
  }

  /** Substring tests, not parsing: "!arm64" brings "wasm" and also "!arm",
      so a "linux && !arm64" line gets "js", "wasm" and, last, "!arm"; with
      no other special it becomes exactly `//go:build js && wasm && !arm`. */
  lemma NotArm64Line(line: string)
    requires Contains(line, "linux") && Contains(line, "!arm64")
    ensures var tags := Tags(SyscallRule, line);
            |tags| >= 3 && tags[0] == "js" && tags[1] == "wasm" && tags[|tags| - 1] == "!arm"
    ensures !Contains(line, "!asan") && !Contains(line, "!msan") && !Contains(line, "!386") ==>
              NewBuildLine(SyscallRule, line) == "//go:build js && wasm && !arm"
  {
    NotArm64Tags(line);
    var present := Present(SyscallRule.specials, line);
    NotArm64Shape(Tags(SyscallRule, line), Matched(SyscallRule, line), present);
    if !Contains(line, "!asan") && !Contains(line, "!msan") && !Contains(line, "!386") {
      NotArm64Join(SyscallRule, line, present);
    }
  }

  /** A tag list that is "js", "wasm" and specials ending in "!arm". */
  lemma NotArm64Shape(tags: seq<string>, matched: seq<string>, present: seq<string>)
    requires matched == ["js"] + ["wasm"] + present && |present| > 0 && present[|present| - 1] == "!arm"
    requires tags == if |matched| == 0 then ["js"] else matched
    ensures |tags| >= 3 && tags[0] == "js" && tags[1] == "wasm" && tags[|tags| - 1] == "!arm"
  {
  }

  /** The tags of such a line: "js", "wasm", the other specials present,
      and "!arm". */
  lemma NotArm64Tags(line: string)
    requires Contains(line, "linux") && Contains(line, "!arm64")
    ensures Present(SyscallRule.specials, line)
         == (if Contains(line, "!asan") then ["!asan"] else [])
          + (if Contains(line, "!msan") then ["!msan"] else [])
          + (if Contains(line, "!386") then ["!386"] else [])
          + ["!arm"]
    ensures Matched(SyscallRule, line) == ["js"] + ["wasm"] + Present(SyscallRule.specials, line)
  {
    var notArm64 := "!arm64";
    assert Occurs(notArm64, "arm64", 1) && Occurs(notArm64, "!arm", 0);
    ContainsWithin(line, notArm64, "arm64");
    ContainsWithin(line, notArm64, "!arm");
    assert PlatformMatch(SyscallRule.platforms, line) by {
      assert Contains(line, SyscallRule.platforms[0]);
    }
    SyscallPresent(line);
  }

  /** Those tags joined into the new line. */
  lemma NotArm64Join(rule: TagRule, line: string, present: seq<string>)
    // the shape of NotArm64Tags with the first three specials absent
    requires present == [] + [] + [] + ["!arm"]
    requires Matched(rule, line) == ["js"] + ["wasm"] + present
    ensures NewBuildLine(rule, line) == "//go:build js && wasm && !arm"
  {
    var tags := Tags(rule, line);
    assert tags == Matched(rule, line);
    assert |tags| == 3 && tags[0] == "js" && tags[1] == "wasm" && tags[2] == "!arm";
    JoinSmall(tags, " && ");
  }

  /** The specials chosen, one test per special of the rule. */
  lemma SyscallPresent(line: string)
    ensures Present(SyscallRule.specials, line)
         == (if Contains(line, "!asan") then ["!asan"] else [])
          + (if Contains(line, "!msan") then ["!msan"] else [])
          + (if Contains(line, "!386") then ["!386"] else [])
          + (if Contains(line, "!arm") then ["!arm"] else [])
  {
    var a, b, c, d := ["!asan"], ["!msan"], ["!386"], ["!arm"];
    assert SyscallRule.specials == a + b + c + d;
    PresentConcat(a + b + c, d, line);
    PresentConcat(a + b, c, line);
    PresentConcat(a, b, line);
    PresentSingle("!asan", line);
    PresentSingle("!msan", line);
    PresentSingle("!386", line);
    PresentSingle("!arm", line);
  }

  // ------------------------------------------------------------------
  // Contents
  // ------------------------------------------------------------------

  /** A file without a build line is copied unchanged: this generator
      rewrites no import. */
  lemma SyscallWithoutBuildLine(goroot: string, data: Bytes)
    requires !FindLine(data, BuildPrefix).1
    ensures Transform(Mksyscall(goroot), data) == data
  {
    LiteralBytes();
    RewriteLineSpec(SyscallRule, data, BuildPrefix);
  }
}
