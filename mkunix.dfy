/** wasm/mkunix.go: rewrites the Linux/arm64 files of `golang.org/x/sys/unix`
    in place for js/wasm: each file is written back into `../unix` under its
    new name, with a new build line and the `syscall` import redirected. */
module Mkunix {
  import opened GoStrings
  import opened LineSearch
  import opened Names
  import opened BuildTags
  import opened FileRewrite
  import opened Driver

  /** Only "linux" brings "js"; two specials are copied; no fallback. */
  const UnixRule := TagRule(["linux"], ["!race", "gc"], false)

  lemma UnixRuleBytes()
    ensures ByteRule(UnixRule)
  {
  }

  /** The generator: it reads and writes `../unix` and rewrites the import. */
  function Mkunix(): (g: Generator)
    ensures ByteRule(g.rule)
  {
    UnixRuleBytes();
    Generator(UnixRule, "../unix", "../unix", true)
  }

  /** The files rewritten, in the order they are processed. */
  const UnixSrcFiles: seq<string> := [
    "affinity_linux.go",
    "aliases.go",
    "bluetooth_linux.go",
    "constants.go",
    "dev_linux.go",
    "dirent.go",
    "endian_little.go",
    "env_unix.go",
    "fcntl.go",
    "fdset.go",
    "ifreq_linux.go",
    "ioctl_linux.go",
    "ioctl_unsigned.go",
    "mremap.go",
    "pagesize_unix.go",
    "race0.go",
    "readdirent_getdents.go",
    "sockcmsg_linux.go",
    "sockcmsg_unix.go",
    "sockcmsg_unix_other.go",
    "syscall.go",
    "syscall_linux.go",
    "syscall_linux_arm64.go",
    "syscall_linux_gc.go",
    "syscall_unix.go",
    "syscall_unix_gc.go",
    "sysvshm_linux.go",
    "sysvshm_unix.go",
    "timestruct.go",
    "zerrors_linux.go",
    "zerrors_linux_arm64.go",
    "zptrace_armnn_linux.go",
    "zptrace_linux_arm64.go",
    "zsyscall_linux.go",
    "zsyscall_linux_arm64.go",
    "zsysnum_linux_arm64.go",
    "ztypes_linux.go",
    "ztypes_linux_arm64.go"
  ]

  /** `main`: the loop over the list. */
  method GenerateUnix(fs: FileSystem) returns (wrote: seq<string>, outcome: Outcome)
    modifies fs
    ensures RunState(fs.files, wrote, outcome) == Run(JobOf(Mkunix()), UnixSrcFiles, old(fs.files), fs.unwritable)
  {
    wrote, outcome := Generate(fs, Mkunix(), UnixSrcFiles);
  }

  // ------------------------------------------------------------------
  // The list of files
  // ------------------------------------------------------------------

  // The facts about the list below are split into chunks of a few names
  // each only to keep every proof obligation small for the solver; the
  // chunks carry no content beyond the lemma they are combined into.

  /** Each listed name is simple, a few names at a time. */
  lemma UnixSimple0()
    ensures forall k | 0 <= k < 2 :: SimpleName(UnixSrcFiles[k])
  {
  }

  lemma UnixSimple1()
    ensures forall k | 2 <= k < 4 :: SimpleName(UnixSrcFiles[k])
  {
  }

  lemma UnixSimple2()
    ensures forall k | 4 <= k < 6 :: SimpleName(UnixSrcFiles[k])
  {
  }

  lemma UnixSimple3()
    ensures forall k | 6 <= k < 8 :: SimpleName(UnixSrcFiles[k])
  {
  }

  lemma UnixSimple4()
    ensures forall k | 8 <= k < 11 :: SimpleName(UnixSrcFiles[k])
  {
  }

  lemma UnixSimple5()
    ensures forall k | 11 <= k < 12 :: SimpleName(UnixSrcFiles[k])
  {
  }

  lemma UnixSimple6()
    ensures forall k | 12 <= k < 14 :: SimpleName(UnixSrcFiles[k])
  {
  }

  lemma UnixSimple7()
    ensures forall k | 14 <= k < 16 :: SimpleName(UnixSrcFiles[k])
  {
  }

  lemma UnixSimple8()
    ensures forall k | 16 <= k < 17 :: SimpleName(UnixSrcFiles[k])
  {
  }

  lemma UnixSimple9()
    ensures forall k | 17 <= k < 18 :: SimpleName(UnixSrcFiles[k])
  {
  }

  lemma UnixSimple10()
    ensures forall k | 18 <= k < 19 :: SimpleName(UnixSrcFiles[k])
  {
  }

  lemma UnixSimple11()
    ensures forall k | 19 <= k < 20 :: SimpleName(UnixSrcFiles[k])
  {
  }

  lemma UnixSimple12()
    ensures forall k | 20 <= k < 22 :: SimpleName(UnixSrcFiles[k])
  {
  }

  lemma UnixSimple13()
    ensures forall k | 22 <= k < 23 :: SimpleName(UnixSrcFiles[k])
  {
  }

  lemma UnixSimple14()
    ensures forall k | 23 <= k < 24 :: SimpleName(UnixSrcFiles[k])
  {
  }

  lemma UnixSimple15()
    ensures forall k | 24 <= k < 25 :: SimpleName(UnixSrcFiles[k])
  {
  }

  lemma UnixSimple16()
    ensures forall k | 25 <= k < 26 :: SimpleName(UnixSrcFiles[k])
  {
  }

  lemma UnixSimple17()
    ensures forall k | 26 <= k < 27 :: SimpleName(UnixSrcFiles[k])
  {
  }

  lemma UnixSimple18()
    ensures forall k | 27 <= k < 29 :: SimpleName(UnixSrcFiles[k])
  {
  }

  lemma UnixSimple19()
    ensures forall k | 29 <= k < 30 :: SimpleName(UnixSrcFiles[k])
  {
  }

  lemma UnixSimple20()
    ensures forall k | 30 <= k < 31 :: SimpleName(UnixSrcFiles[k])
  {
  }

  lemma UnixSimple21()
    ensures forall k | 31 <= k < 32 :: SimpleName(UnixSrcFiles[k])
  {
  }

  lemma UnixSimple22()
    ensures forall k | 32 <= k < 33 :: SimpleName(UnixSrcFiles[k])
  {
  }

  lemma UnixSimple23()
    ensures forall k | 33 <= k < 34 :: SimpleName(UnixSrcFiles[k])
  {
  }

  lemma UnixSimple24()
    ensures forall k | 34 <= k < 35 :: SimpleName(UnixSrcFiles[k])
  {
  }

  lemma UnixSimple25()
    ensures forall k | 35 <= k < 36 :: SimpleName(UnixSrcFiles[k])
  {
  }

  lemma UnixSimple26()
    ensures forall k | 36 <= k < 37 :: SimpleName(UnixSrcFiles[k])
  {
  }

  lemma UnixSimple27()
    ensures forall k | 37 <= k < 38 :: SimpleName(UnixSrcFiles[k])
  {
  }

  lemma UnixDistinct00()
    ensures forall k, l | 0 <= k < l < 10 :: UnixSrcFiles[k] != UnixSrcFiles[l]
  {
  }

  lemma UnixDistinct01()
    ensures forall k, l | 0 <= k < 10 && 10 <= l < 20 :: UnixSrcFiles[k] != UnixSrcFiles[l]
  {
  }

  lemma UnixDistinct02()
    ensures forall k, l | 0 <= k < 10 && 20 <= l < 30 :: UnixSrcFiles[k] != UnixSrcFiles[l]
  {
  }

  lemma UnixDistinct03()
    ensures forall k, l | 0 <= k < 10 && 30 <= l < 38 :: UnixSrcFiles[k] != UnixSrcFiles[l]
  {
  }

  lemma UnixDistinct11()
    ensures forall k, l | 10 <= k < l < 20 :: UnixSrcFiles[k] != UnixSrcFiles[l]
  {
  }

  lemma UnixDistinct12()
    ensures forall k, l | 10 <= k < 20 && 20 <= l < 30 :: UnixSrcFiles[k] != UnixSrcFiles[l]
  {
  }

  lemma UnixDistinct13()
    ensures forall k, l | 10 <= k < 20 && 30 <= l < 38 :: UnixSrcFiles[k] != UnixSrcFiles[l]
  {
  }

  lemma UnixDistinct22()
    ensures forall k, l | 20 <= k < l < 30 :: UnixSrcFiles[k] != UnixSrcFiles[l]
  {
  }

  lemma UnixDistinct23()
    ensures forall k, l | 20 <= k < 30 && 30 <= l < 38 :: UnixSrcFiles[k] != UnixSrcFiles[l]
  {
  }

  lemma UnixDistinct33()
    ensures forall k, l | 30 <= k < l < 38 :: UnixSrcFiles[k] != UnixSrcFiles[l]
  {
  }

  /** Every listed name is a simple one: a ".go" file without 'j', 'w' or
      "__". */
  lemma UnixNamesSimple()
    ensures forall k | 0 <= k < |UnixSrcFiles| :: SimpleName(UnixSrcFiles[k])
  {
    UnixSimple0();
    UnixSimple1();
    UnixSimple2();
    UnixSimple3();
    UnixSimple4();
    UnixSimple5();
    UnixSimple6();
    UnixSimple7();
    UnixSimple8();
    UnixSimple9();
    UnixSimple10();
    UnixSimple11();
    UnixSimple12();
    UnixSimple13();
    UnixSimple14();
    UnixSimple15();
    UnixSimple16();
    UnixSimple17();
    UnixSimple18();
    UnixSimple19();
    UnixSimple20();
    UnixSimple21();
    UnixSimple22();
    UnixSimple23();
    UnixSimple24();
    UnixSimple25();
    UnixSimple26();
    UnixSimple27();
  }

  /** No name is listed twice. */
  lemma UnixNamesDistinct()
    ensures forall k, l | 0 <= k < l < |UnixSrcFiles| :: UnixSrcFiles[k] != UnixSrcFiles[l]
  {
    UnixDistinct00();
    UnixDistinct01();
    UnixDistinct02();
    UnixDistinct03();
    UnixDistinct11();
    UnixDistinct12();
    UnixDistinct13();
    UnixDistinct22();
    UnixDistinct23();
    UnixDistinct33();
  }

  /** The new names of the list are pairwise distinct. */
  lemma UnixNewNamesDistinct()
    ensures forall k, l | 0 <= k < l < |UnixSrcFiles| ::
              NewName(UnixSrcFiles[k]) != NewName(UnixSrcFiles[l])
  {
    UnixNamesSimple();
    UnixNamesDistinct();
    forall k, l | 0 <= k < l < |UnixSrcFiles|
      ensures NewName(UnixSrcFiles[k]) != NewName(UnixSrcFiles[l])
    {
      NewNameInjective(UnixSrcFiles[k], UnixSrcFiles[l]);
    }
  }

  /** No new name, with ".go" appended, is a listed name: since sources and
      targets share `../unix`, no source is overwritten. */
  lemma UnixNewNamesNotListed()
    ensures forall k, l | 0 <= k < |UnixSrcFiles| && 0 <= l < |UnixSrcFiles| ::
              NewName(UnixSrcFiles[k]) + ".go" != UnixSrcFiles[l]
  {
    UnixNamesSimple();
    forall k, l | 0 <= k < |UnixSrcFiles| && 0 <= l < |UnixSrcFiles|
      ensures NewName(UnixSrcFiles[k]) + ".go" != UnixSrcFiles[l]
    {
      NewNameNotSource(UnixSrcFiles[k], UnixSrcFiles[l]);
    }
  }

  // ------------------------------------------------------------------
  // A run over the list
  // ------------------------------------------------------------------

  /** Where the job of the generator reads and writes. */
  lemma UnixPaths(f: string)
    ensures SourcePath(JobOf(Mkunix()), f) == "../unix/" + f
    ensures TargetPath(JobOf(Mkunix()), f) == "../unix/" + NewName(f) + ".go"
  {
  }

  /** With every listed file readable and every target writable, the run
      writes each file once, under its new name, with the transformed
      contents, and logs every new name in list order; every source is read
      before anything overwrites it. */
  lemma UnixRunSucceeds(files: map<string, Bytes>, unwritable: set<string>)
    requires var job := JobOf(Mkunix());
             forall k | 0 <= k < |UnixSrcFiles| :: SourcePath(job, UnixSrcFiles[k]) in files
    requires var job := JobOf(Mkunix());
             forall k | 0 <= k < |UnixSrcFiles| :: TargetPath(job, UnixSrcFiles[k]) !in unwritable
    ensures var job := JobOf(Mkunix());
            var st := Run(job, UnixSrcFiles, files, unwritable);
            && st.outcome == Done
            && |st.wrote| == |UnixSrcFiles|
            && (forall k | 0 <= k < |UnixSrcFiles| :: st.wrote[k] == NewName(UnixSrcFiles[k]))
            && forall k | 0 <= k < |UnixSrcFiles| ::
                 var target := TargetPath(job, UnixSrcFiles[k]);
                 && target in st.files
                 && st.files[target] == Transform(Mkunix(), files[SourcePath(job, UnixSrcFiles[k])])
  {
    var job := JobOf(Mkunix());
    UnixNamesSimple();
    UnixNamesDistinct();
    TargetsDistinct(job, UnixSrcFiles);
    TargetsInPlace(job, UnixSrcFiles);
    RunSucceeds(job, UnixSrcFiles, files, unwritable);
  }

  // ------------------------------------------------------------------
  // Names
  // ------------------------------------------------------------------

  /** A name without "linux" is marked: "pagesize_unix.go" becomes
      "pagesize_unix__js", the name of unix/pagesize_unix__js.go. */
  lemma RenamePagesize(f: string)
    requires f == "pagesize_unix.go"
    ensures NewName(f) == "pagesize_unix__js"
  {
    var stem := f[..13];
    PagesizePieces(f, stem);
    MissingElement(stem, "linux", 'l');
    MissingElement(stem, "arm64", '6');
    NameWithoutTokens(stem);
  }

  /** The stem of "pagesize_unix.go" lacks an 'l' and a '6'. */
  lemma PagesizePieces(f: string, stem: string)
    requires f == "pagesize_unix.go" && stem == f[..13]
    ensures f == stem + ".go" && stem + "__js" == "pagesize_unix__js"
    ensures 'l' !in stem && '6' !in stem
  {
  }

  /** "zptrace_armnn_linux.go" becomes "zptrace_armnn_js": "armnn" is not
      "arm64". */
  lemma RenameZptrace(f: string)
    requires f == "zptrace_armnn_linux.go"
    ensures NewName(f) == "zptrace_armnn_js"
  {
    var a, b := f[..14], f[19..19];
    ZptracePieces(f, a, b);
    OccurrenceAtMark(a, "linux", b, 4);
    MissingElement(a + "linux" + b, "arm64", '6');
    NameWithPlatform(a, b);
  }

  /** The pieces of "zptrace_armnn_linux.go" around its token. */
  lemma ZptracePieces(f: string, a: string, b: string)
    requires f == "zptrace_armnn_linux.go" && a == f[..14] && b == f[19..19]
    ensures f == a + "linux" + b + ".go" && a + "js" + b == "zptrace_armnn_js"
    ensures 'x' !in a && 'x' !in b && '6' !in a + "linux" + b
  {
  }

  // ------------------------------------------------------------------
  // Build lines
  // ------------------------------------------------------------------

  /** Which tags the rule chooses: "js" only for "linux" ("unix" alone does
      not bring it), "wasm" for "arm64", "!race" and "gc" for themselves. */
  lemma UnixTags(line: string, t: string)
    ensures t in Tags(UnixRule, line) <==>
      || (t == "js" && Contains(line, "linux"))
      || (t == "wasm" && Contains(line, "arm64"))
      || (t in ["!race", "gc"] && Contains(line, t))
  {
    TagsMembers(UnixRule, line, t);
    assert PlatformMatch(UnixRule.platforms, line) <==> Contains(line, "linux") by {
      assert UnixRule.platforms[0] == "linux";
    }
  }

  /** Substring tests: a line mentioning "gccgo" also gets "gc". */
  lemma GccgoBringsGc(line: string)
    requires Contains(line, "gccgo")
    ensures "gc" in Tags(UnixRule, line)
  {
    var gccgo := "gccgo";
    assert Occurs(gccgo, "gc", 0);
    ContainsWithin(line, gccgo, "gc");
    UnixTags(line, "gc");
  }

  /** The tags come in the rule's order: "js", "wasm", "!race", "gc". */
  lemma UnixTagsOrder(line: string)
    ensures Subsequence(Tags(UnixRule, line), ["js", "wasm", "!race", "gc"])
  {
    TagsInOrder(UnixRule, line);
    assert ["js", "wasm"] + UnixRule.specials == ["js", "wasm", "!race", "gc"];
  }

  /** No fallback: a line with none of the tokens becomes "//go:build "
      with an empty expression. */
  lemma UnixNoFallback(line: string)
    requires !Contains(line, "linux") && !Contains(line, "arm64")
    requires !Contains(line, "!race") && !Contains(line, "gc")
    ensures NewBuildLine(UnixRule, line) == "//go:build "
  {
    assert !PlatformMatch(UnixRule.platforms, line) by {
      assert UnixRule.platforms[0] == "linux";
    }
    UnixPresent(line);
    assert |Matched(UnixRule, line)| == 0;
    NothingMatched(UnixRule, line);
  }

  /** The specials chosen, one test per special of the rule. */
  lemma UnixPresent(line: string)
    ensures Present(UnixRule.specials, line)
         == (if Contains(line, "!race") then ["!race"] else [])
          + (if Contains(line, "gc") then ["gc"] else [])
  {
    assert UnixRule.specials == ["!race"] + ["gc"];
    PresentConcat(["!race"], ["gc"], line);
    PresentSingle("!race", line);
    PresentSingle("gc", line);
  }

  /** "linux && !race" becomes "js && !race". */
  lemma LinuxNotRaceLine(line: string)
    requires Contains(line, "linux") && Contains(line, "!race")
    requires !Contains(line, "arm64") && !Contains(line, "gc")
    ensures NewBuildLine(UnixRule, line) == "//go:build js && !race"
  {
    assert PlatformMatch(UnixRule.platforms, line) by {
      assert Contains(line, UnixRule.platforms[0]);
    }
    UnixPresent(line);
    LinuxNotRaceJoin(UnixRule, line, Present(UnixRule.specials, line));
  }

  /** Those tags joined into the new line. */
  lemma LinuxNotRaceJoin(rule: TagRule, line: string, present: seq<string>)
    // the shape of UnixPresent with "!race" present and "gc" absent
    requires present == ["!race"] + []
    requires Matched(rule, line) == ["js"] + [] + present
    ensures NewBuildLine(rule, line) == "//go:build js && !race"
  {
    var tags := Tags(rule, line);
    assert tags == Matched(rule, line);
    assert |tags| == 2 && tags[0] == "js" && tags[1] == "!race";
    JoinSmall(tags, " && ");
  }

  /** "linux && arm64" becomes "js && wasm". */
  lemma LinuxArm64Line(line: string)
    requires Contains(line, "linux") && Contains(line, "arm64")
    requires !Contains(line, "!race") && !Contains(line, "gc")
    ensures NewBuildLine(UnixRule, line) == "//go:build js && wasm"
  {
    assert PlatformMatch(UnixRule.platforms, line) by {
      assert Contains(line, UnixRule.platforms[0]);
    }
    UnixPresent(line);
    LinuxArm64Join(UnixRule, line, Present(UnixRule.specials, line));
  }

  /** Those tags joined into the new line. */
  lemma LinuxArm64Join(rule: TagRule, line: string, present: seq<string>)
    // the shape of UnixPresent with neither special present
    requires present == [] + []
    requires Matched(rule, line) == ["js"] + ["wasm"] + present
    ensures NewBuildLine(rule, line) == "//go:build js && wasm"
  {
    var tags := Tags(rule, line);
    assert tags == Matched(rule, line);
    assert |tags| == 2 && tags[0] == "js" && tags[1] == "wasm";
    JoinSmall(tags, " && ");
  }

  // ------------------------------------------------------------------
  // Contents
  // ------------------------------------------------------------------

  /** The import is redirected whether or not a build line was found: in a
      file without one, it is the only change. */
  lemma UnixWithoutBuildLine(data: Bytes)
    requires !FindLine(data, BuildPrefix).1
    ensures Transform(Mkunix(), data) == RewriteImport(data)
  {
    LiteralBytes();
    RewriteLineSpec(UnixRule, data, BuildPrefix);
  }
}
