/** The output-name rule shared by wasm/mksyscall.go and wasm/mkunix.go:
    strip the extension, turn "linux" into "js" and "arm64" into "wasm", and
    mark names that had no "linux" with "__js". */
module Names {
  import opened GoStrings

  /** The name (without ".go") under which a source file is written. */
  function NewName(filename: string): string
  {
    var base := TrimSuffix(filename, Ext(filename));
    var renamed := ReplaceAll(ReplaceAll(base, "linux", "js"), "arm64", "wasm");
    // double underscore: avoids a clash with files that already carry a
    // GOOS suffix
    if !Contains(filename, "linux") then renamed + "__js" else renamed
  }

  /** The facts about the four tokens that the general ReplaceAll lemmas need. */
  lemma TokenFacts()
    ensures NoOverlapFromRep("linux", "js") && 'j' !in "inux"
    ensures NoOverlapFromRep("arm64", "wasm") && 'w' !in "rm64"
    ensures NoCommonElement("wasm", "linux") && NoCommonElement("__js", "linux")
    ensures NoCommonElement("__js", "arm64")
    ensures NoCommonElement("linux", "arm64") && NoCommonElement("js", "arm64")
  {
    PlatformOverlap();
    ArchOverlap();
  }

  /** No occurrence of "linux" can start inside "js". */
  lemma PlatformOverlap()
    ensures NoOverlapFromRep("linux", "js")
  {
    assert "js"[1..] == "s";
  }

  /** No occurrence of "arm64" can start inside "wasm". */
  lemma ArchOverlap()
    ensures NoOverlapFromRep("arm64", "wasm")
  {
    assert "wasm"[1..] == "asm" && "wasm"[2..] == "sm" && "wasm"[3..] == "m";
  }

  /** The rewritten name never contains "linux" or "arm64". */
  lemma NoOriginToken(filename: string)
    ensures !Contains(NewName(filename), "linux")
    ensures !Contains(NewName(filename), "arm64")
  {
    TokenFacts();
    var base := TrimSuffix(filename, Ext(filename));
    var step1 := ReplaceAll(base, "linux", "js");
    var step2 := ReplaceAll(step1, "arm64", "wasm");
    ReplaceAllRemoves(base, "linux", "js");
    ReplaceAllKeepsAbsent(step1, "arm64", "wasm", "linux");
    ReplaceAllRemoves(step1, "arm64", "wasm");
    if !Contains(filename, "linux") {
      AppendForeign(step2, "__js", "linux");
      AppendForeign(step2, "__js", "arm64");
    }
  }

  /** A name whose stem holds "linux" gets "js", one whose stem holds "arm64"
      gets "wasm"; a name without "linux" ends with the "__js" marker. */
  lemma TargetTokens(filename: string)
    ensures Contains(TrimSuffix(filename, Ext(filename)), "linux") ==> Contains(NewName(filename), "js")
    ensures Contains(TrimSuffix(filename, Ext(filename)), "arm64") ==> Contains(NewName(filename), "wasm")
    ensures !Contains(filename, "linux") ==> HasSuffix(NewName(filename), "__js")
  {
    TokenFacts();
    var base := TrimSuffix(filename, Ext(filename));
    var step1 := ReplaceAll(base, "linux", "js");
    var step2 := ReplaceAll(step1, "arm64", "wasm");
    if Contains(base, "linux") {
      ReplaceAllInserts(base, "linux", "js");
      ReplaceAllKeepsForeign(step1, "arm64", "wasm", "js");
      if !Contains(filename, "linux") {
        var i :| Occurs(step2, "js", i);
        OccursAppend(step2, "__js", "js", i);
      }
    }
    if Contains(base, "arm64") {
      ReplaceAllKeepsForeign(base, "linux", "js", "arm64");
      ReplaceAllInserts(step1, "arm64", "wasm");
      if !Contains(filename, "linux") {
        var i :| Occurs(step2, "wasm", i);
        OccursAppend(step2, "__js", "wasm", i);
      }
    }
  }

  // ------------------------------------------------------------------
  // Concrete names: the three shapes that occur in the file lists
  // ------------------------------------------------------------------

  /** For a ".go" file, the rule applies to the stem before ".go". */
  lemma NewNameOfGoFile(stem: string)
    ensures NewName(stem + ".go") ==
      var renamed := ReplaceAll(ReplaceAll(stem, "linux", "js"), "arm64", "wasm");
      if !Contains(stem + ".go", "linux") then renamed + "__js" else renamed
  {
    ExtGo(stem);
  }

  /** A stem with neither token keeps its text and gains the marker. */
  lemma NameWithoutTokens(stem: string)
    requires !Contains(stem, "linux") && !Contains(stem, "arm64")
    ensures NewName(stem + ".go") == stem + "__js"
  {
    NewNameOfGoFile(stem);
    PlatformInStem(stem);
    ReplaceAllAbsent(stem, "linux", "js");
    ReplaceAllAbsent(stem, "arm64", "wasm");
  }

  /** A name holding "linux" gets no marker. */
  lemma PlatformNoMarker(a: string, rest: string)
    ensures Contains(a + "linux" + rest + ".go", "linux")
  {
    var f := a + "linux" + rest + ".go";
    assert f[|a|..|a| + 5] == "linux";
    assert Occurs(f, "linux", |a|);
  }

  /** `a + "linux" + b` with that "linux" its only one and no "arm64"
      becomes `a + "js" + b`. */
  lemma NameWithPlatform(a: string, b: string)
    requires forall i | Occurs(a + "linux" + b, "linux", i) :: i == |a|
    requires !Contains(a + "linux" + b, "arm64")
    ensures NewName(a + "linux" + b + ".go") == a + "js" + b
  {
    TokenFacts();
    NewNameOfGoFile(a + "linux" + b);
    PlatformNoMarker(a, b);
    ReplaceAllSingle(a, b, "linux", "js");
    ForeignSwap(a, "linux", "js", b, "arm64");
    ReplaceAllAbsent(a + "js" + b, "arm64", "wasm");
  }

  /** The second replacement on a name with one "linux" and one "arm64"
      after it, once "linux" has become "js". */
  lemma ArchAfterPlatform(a: string, b: string, c: string)
    requires forall i | Occurs(a + "linux" + b + "arm64" + c, "arm64", i) :: i == |a| + 5 + |b|
    ensures ReplaceAll(a + "js" + b + "arm64" + c, "arm64", "wasm") == a + "js" + b + "wasm" + c
  {
    TokenFacts();
    assert |a + "linux" + b| == |a| + 5 + |b|;
    OnlyOccurrence(a + "linux" + b, "arm64", c);
    assert "arm64"[..4] == "arm6";
    assert a + "linux" + b + "arm6" == a + "linux" + (b + "arm6");
    ForeignSwap(a, "linux", "js", b + "arm6", "arm64");
    assert a + "js" + (b + "arm6") == a + "js" + b + "arm6";
    ReplaceAllOnce(a + "js" + b, c, "arm64", "wasm");
    ReplaceAllAbsent(c, "arm64", "wasm");
  }

  /** Concatenation regrouped. */
  lemma Regroup(v: string, w: string, x: string, y: string, z: string)
    ensures v + w + x + y + z == v + w + (x + y + z) == (v + w + x) + y + z
  {
  }

  /** Both replacements on a stem with one "linux" followed by one
      "arm64". */
  lemma PlatformAndArchSteps(a: string, b: string, c: string)
    requires forall i | Occurs(a + "linux" + b + "arm64" + c, "linux", i) :: i == |a|
    requires forall i | Occurs(a + "linux" + b + "arm64" + c, "arm64", i) :: i == |a| + 5 + |b|
    ensures Renamed(a + "linux" + b + "arm64" + c) == a + "js" + b + "wasm" + c
  {
    Regroup(a, "linux", b, "arm64", c);
    ReplaceAllSingle(a, b + "arm64" + c, "linux", "js");
    Regroup(a, "js", b, "arm64", c);
    ArchAfterPlatform(a, b, c);
  }

  /** `a + "linux" + b + "arm64" + c`, with those two its only "linux" and
      only "arm64", becomes `a + "js" + b + "wasm" + c`. */
  lemma NameWithPlatformAndArch(a: string, b: string, c: string)
    requires forall i | Occurs(a + "linux" + b + "arm64" + c, "linux", i) :: i == |a|
    requires forall i | Occurs(a + "linux" + b + "arm64" + c, "arm64", i) :: i == |a| + 5 + |b|
    ensures NewName(a + "linux" + b + "arm64" + c + ".go") == a + "js" + b + "wasm" + c
  {
    var stem := a + "linux" + b + "arm64" + c;
    NewNameOfGoFile(stem);
    Regroup(a, "linux", b, "arm64", c);
    PlatformNoMarker(a, b + "arm64" + c);
    PlatformAndArchSteps(a, b, c);
  }

  // ------------------------------------------------------------------
  // Distinct names: the rule can be undone on simple Go file names
  // ------------------------------------------------------------------

  /** `f` ends in ".go" (tested from the end). */
  predicate IsGoFile(f: string)
  {
    |f| >= 3 && f[|f| - 3] == '.' && f[|f| - 2] == 'g' && f[|f| - 1] == 'o'
  }

  /** `s` has no two underscores in a row. */
  predicate NoDoubleUnderscore(s: string)
  {
    forall i | 0 <= i < |s| - 1 :: s[i] != '_' || s[i + 1] != '_'
  }

  /** A name on which the rule can be undone: a ".go" file with no 'j' and
      no 'w' (the first letters of "js" and "wasm") and no "__" (the marker's
      separator). */
  predicate SimpleName(f: string)
  {
    IsGoFile(f) && 'j' !in f && 'w' !in f && NoDoubleUnderscore(f)
  }

  /** The name without its ".go". */
  function Stem(f: string): (stem: string)
    requires IsGoFile(f)
    ensures stem + ".go" == f
  {
    f[..|f| - 3]
  }

  /** The stem of a simple name keeps its properties. */
  lemma SimpleStem(f: string)
    requires SimpleName(f)
    ensures 'j' !in Stem(f) && 'w' !in Stem(f) && !Contains(Stem(f), "__")
  {
    StemLacks(f, 'j');
    StemLacks(f, 'w');
    StemNoDouble(f);
  }

  /** A character the name lacks is not in its stem. */
  lemma StemLacks(f: string, c: char)
    requires IsGoFile(f) && c !in f
    ensures c !in Stem(f)
  {
    var stem := Stem(f);
    assert forall i | 0 <= i < |stem| :: stem[i] == f[i];
  }

  /** A name without "__" has a stem without "__". */
  lemma StemNoDouble(f: string)
    requires IsGoFile(f) && NoDoubleUnderscore(f)
    ensures !Contains(Stem(f), "__")
  {
    var stem := Stem(f);
    assert forall i | 0 <= i < |stem| :: stem[i] == f[i];
    NotContainsByEnds(stem, "__");
  }

  /** Both replacements, without the marker. */
  function Renamed(stem: string): string
  {
    ReplaceAll(ReplaceAll(stem, "linux", "js"), "arm64", "wasm")
  }

  /** The two replacements taken back in reverse order. */
  function Restored(name: string): string
  {
    ReplaceAll(ReplaceAll(name, "wasm", "arm64"), "js", "linux")
  }

  /** Without a 'j' or a 'w' in the stem, the replacements can be undone. */
  lemma RestoreRenamed(stem: string)
    requires 'j' !in stem && 'w' !in stem
    ensures Restored(Renamed(stem)) == stem
  {
    var step1 := ReplaceAll(stem, "linux", "js");
    ReplaceAllAvoids(stem, "linux", "js", 'w');
    ReplaceAllInverse(step1, "arm64", "wasm");
    ReplaceAllInverse(stem, "linux", "js");
  }

  /** The replacements write no underscore, so they create no "__". */
  lemma RenamedNoDouble(stem: string)
    requires !Contains(stem, "__")
    ensures !Contains(Renamed(stem), "__")
  {
    var step1 := ReplaceAll(stem, "linux", "js");
    ReplaceAllKeepsAbsent(stem, "linux", "js", "__");
    ReplaceAllKeepsAbsent(step1, "arm64", "wasm", "__");
  }

  /** The marker brings a "__". */
  lemma MarkerDouble(name: string)
    ensures Contains(name + "__js", "__")
  {
    assert (name + "__js")[|name|..|name| + 2] == "__";
    assert Occurs(name + "__js", "__", |name|);
  }

  /** Distinct simple names are renamed apart: the marker's "__" cannot come
      from a renamed stem, and renamed stems determine their stems. */
  lemma NewNameInjective(f1: string, f2: string)
    requires SimpleName(f1) && SimpleName(f2)
    ensures NewName(f1) == NewName(f2) ==> f1 == f2
  {
    var s1, s2 := Stem(f1), Stem(f2);
    NewNameOfGoFile(s1);
    NewNameOfGoFile(s2);
    SimpleStem(f1);
    SimpleStem(f2);
    RestoreRenamed(s1);
    RestoreRenamed(s2);
    RenamedNoDouble(s1);
    RenamedNoDouble(s2);
    var r1, r2 := Renamed(s1), Renamed(s2);
    MarkerDouble(r1);
    MarkerDouble(r2);
    assert (r1 + "__js")[..|r1|] == r1;
    assert (r2 + "__js")[..|r2|] == r2;
  }

  /** On a simple name the marker is recognisable: the new name holds "__"
      exactly when the original name holds no "linux". */
  lemma MarkerExactly(f: string)
    requires SimpleName(f)
    ensures Contains(NewName(f), "__") <==> !Contains(f, "linux")
  {
    var stem := Stem(f);
    NewNameOfGoFile(stem);
    SimpleStem(f);
    RenamedNoDouble(stem);
    MarkerDouble(Renamed(stem));
  }

  /** "linux" cannot reach into the ".go" extension. */
  lemma PlatformInStem(stem: string)
    ensures Contains(stem + ".go", "linux") ==> Contains(stem, "linux")
  {
    if !Contains(stem, "linux") {
      AppendForeign(stem, ".go", "linux");
    }
  }

  /** Every new name of a ".go" file holds a 'j', from "js" or from the
      marker. */
  lemma NewNameHasJ(f: string)
    requires IsGoFile(f)
    ensures 'j' in NewName(f)
  {
    var stem := Stem(f);
    ExtGo(stem);
    PlatformInStem(stem);
    TargetTokens(f);
    var name := NewName(f);
    ElementOfOccurrence(name, "js", 'j');
    assert HasSuffix(name, "__js") ==> name[|name| - 2] == 'j';
  }

  /** A new name with ".go" appended is never a name without 'j': a file
      written under its new name never lands on such a file. */
  lemma NewNameNotSource(g: string, f: string)
    requires IsGoFile(g) && 'j' !in f
    ensures NewName(g) + ".go" != f
  {
    NewNameHasJ(g);
    var name := NewName(g);
    assert (name + ".go")[..|name|] == name;
  }

  /** The rule writes no '/': a name without one keeps none. */
  lemma NoSlashInNewName(f: string)
    requires '/' !in f
    ensures '/' !in NewName(f)
  {
    var base := TrimSuffix(f, Ext(f));
    assert forall i | 0 <= i < |base| :: base[i] == f[i];
    ReplaceAllAvoids(base, "linux", "js", '/');
    ReplaceAllAvoids(ReplaceAll(base, "linux", "js"), "arm64", "wasm", '/');
  }
}
