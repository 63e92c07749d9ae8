/** What each generator does to the bytes of one file: the build line is
    replaced by the new one (first occurrence of its text only), and, for
    wasm/mkunix.go, the first `"syscall"` import path is redirected. */
module FileRewrite {
  import opened GoStrings
  import opened LineSearch
  import opened BuildTags

  /** The data that tells the two generators apart: how tags are chosen,
      where files are read and written, and whether the import is rewritten. */
  datatype Generator = Generator(rule: TagRule, srcDir: string, dstDir: string, rewriteImport: bool)

  /** The import path wasm/mkunix.go looks for, quotes included. */
  const SyscallImport := "\"syscall\""

  /** The import path it is replaced with, quotes included. */
  const WasmSyscallImport := "\"golang.org/x/sys/wasm/syscall\""

  lemma ImportBytes()
    ensures IsByteString(SyscallImport) && IsByteString(WasmSyscallImport)
  {
  }

  /** The build-line step: find the first `//go:build` line; if there is
      one, replace the first occurrence of its text by the new build line. */
  function RewriteBuildLine(rule: TagRule, data: Bytes): Bytes
    requires ByteRule(rule)
  {
    LiteralBytes();
    RewriteLine(rule, data, BuildPrefix)
  }

  /** The build-line step for the line found by `prefix`. */
  function RewriteLine(rule: TagRule, data: Bytes, prefix: string): Bytes
    requires ByteRule(rule) && IsByteString(prefix)
  {
    var (line, found) := FindLine(data, prefix);
    if found then
      NewBuildLineBytes(rule, line);
      ReplaceFirst(data, BytesOf(line), BytesOf(NewBuildLine(rule, line)))
    else data
  }

  /** The import step of wasm/mkunix.go. */
  function RewriteImport(data: Bytes): Bytes
  {
    ImportBytes();
    ReplaceFirst(data, BytesOf(SyscallImport), BytesOf(WasmSyscallImport))
  }

  /** Everything a generator does to one file's contents. */
  function Transform(g: Generator, data: Bytes): Bytes
    requires ByteRule(g.rule)
  {
    var d := RewriteBuildLine(g.rule, data);
    if g.rewriteImport then RewriteImport(d) else d
  }

  // ------------------------------------------------------------------
  // What the build-line step does
  // ------------------------------------------------------------------

  /** A file without a line starting with `prefix` is left as it is;
      otherwise the text of the first such line is replaced at its earliest
      occurrence, and all bytes before and after that occurrence are kept. */
  lemma RewriteLineSpec(rule: TagRule, data: Bytes, prefix: string)
    requires ByteRule(rule) && IsByteString(prefix)
    ensures !FindLine(data, prefix).1 ==> RewriteLine(rule, data, prefix) == data
    ensures FindLine(data, prefix).1 ==>
              var line := FindLine(data, prefix).0;
              && IsByteString(line) && IsByteString(NewBuildLine(rule, line))
              && exists k :: SplicedAtFirst(data, BytesOf(line), BytesOf(NewBuildLine(rule, line)),
                                            RewriteLine(rule, data, prefix), k)
  {
    var (line, found) := FindLine(data, prefix);
    if found {
      FindLineSpec(data, prefix);
      NewBuildLineBytes(rule, line);
      var pat, rep := BytesOf(line), BytesOf(NewBuildLine(rule, line));
      assert RewriteLine(rule, data, prefix) == ReplaceFirst(data, pat, rep);
      ReplaceFirstSpec(data, pat, rep);
    }
  }

  /** The line is rewritten in place when its text does not already occur
      earlier in the file: the splice is at the found line's own position,
      so the result is the file with exactly that line swapped for the new
      one. */
  lemma LineInPlace(rule: TagRule, data: Bytes, prefix: string)
    requires ByteRule(rule) && IsByteString(prefix)
    requires var lines := Split(data, Newline);
             var k := FirstWithPrefix(lines, BytesOf(prefix));
             k >= 0 && forall j | 0 <= j < Offset(lines, 1, k) :: !Occurs(data, lines[k], j)
    ensures var lines := Split(data, Newline);
            var k := FirstWithPrefix(lines, BytesOf(prefix));
            var newLine := NewBuildLine(rule, StringOf(lines[k]));
            IsByteString(newLine) &&
            SplicedAtFirst(data, lines[k], BytesOf(newLine), RewriteLine(rule, data, prefix), Offset(lines, 1, k))
  {
    var lines := Split(data, Newline);
    var k := FirstWithPrefix(lines, BytesOf(prefix));
    var line := StringOf(lines[k]);
    NewBuildLineBytes(rule, line);
    var rep := BytesOf(NewBuildLine(rule, line));
    BytesOfStringOf(lines[k]);
    assert RewriteLine(rule, data, prefix) == ReplaceFirst(data, lines[k], rep);
    JoinSplit(data, Newline);
    ReplaceFirstSegment(lines, [Newline], k, rep);
  }

  /** Where a build line was found, the rewritten file holds the new line,
      and that line is a build line again. */
  lemma BuildLineKept(rule: TagRule, data: Bytes)
    requires ByteRule(rule) && FindLine(data, BuildPrefix).1
    ensures var newLine := NewBuildLine(rule, FindLine(data, BuildPrefix).0);
            && HasPrefix(newLine, BuildPrefix) && IsByteString(newLine)
            && Contains(RewriteBuildLine(rule, data), BytesOf(newLine))
  {
    LiteralBytes();
    var line := FindLine(data, BuildPrefix).0;
    NewLineIsBuildLine(rule, line);
    RewriteLineSpec(rule, data, BuildPrefix);
    var rep := BytesOf(NewBuildLine(rule, line));
    var r := RewriteBuildLine(rule, data);
    var k :| SplicedAtFirst(data, BytesOf(line), rep, r, k);
    assert r[k..k + |rep|] == rep;
    assert Occurs(r, rep, k);
  }

  // ------------------------------------------------------------------
  // What the import step does
  // ------------------------------------------------------------------

  /** Without a `"syscall"` import the contents are unchanged; otherwise its
      earliest occurrence becomes `"golang.org/x/sys/wasm/syscall"`, which
      the result then contains, and nothing else changes. */
  lemma RewriteImportSpec(data: Bytes)
    ensures IsByteString(SyscallImport) && IsByteString(WasmSyscallImport)
    ensures var pat, rep := BytesOf(SyscallImport), BytesOf(WasmSyscallImport);
            && (!Contains(data, pat) ==> RewriteImport(data) == data)
            && (Contains(data, pat) ==>
                  && Contains(RewriteImport(data), rep)
                  && exists k :: SplicedAtFirst(data, pat, rep, RewriteImport(data), k))
  {
    ImportBytes();
    var pat, rep := BytesOf(SyscallImport), BytesOf(WasmSyscallImport);
    ReplaceFirstSpec(data, pat, rep);
    if Contains(data, pat) {
      var k := IndexOf(data, pat);
      var r := data[..k] + rep + data[k + |pat|..];
      assert r[k..k + |rep|] == rep;
      assert Occurs(r, rep, k);
    }
  }
}
