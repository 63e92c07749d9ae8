/** `findLineByPrefix`, identical in wasm/mksyscall.go and wasm/mkunix.go:
    the first newline-separated line of a file that starts with a prefix. */
module LineSearch {
  import opened GoStrings

  /** The byte '\n'. */
  const Newline: byte := 10

  /** The index of the first line that starts with `p`, or -1 when none does. */
  function FirstWithPrefix(lines: seq<Bytes>, p: Bytes): (k: int)
    ensures -1 <= k < |lines|
    ensures k >= 0 ==> HasPrefix(lines[k], p)
    ensures forall j | 0 <= j < |lines| && (k < 0 || j < k) :: !HasPrefix(lines[j], p)
    decreases |lines|
  {
    if |lines| == 0 then -1
    else if HasPrefix(lines[0], p) then 0
    else
      var k := FirstWithPrefix(lines[1..], p);
      assert forall j | 1 <= j < |lines| :: lines[j] == lines[1..][j - 1];
      if k < 0 then -1 else k + 1
  }

  /** What `findLineByPrefix(data, prefix)` returns: the text of the first
      line of `data` that starts with `prefix` and `true`, or `("", false)`. */
  function FindLine(data: Bytes, prefix: string): (r: (string, bool))
    requires IsByteString(prefix)
    ensures IsByteString(r.0)
  {
    var lines := Split(data, Newline);
    var k := FirstWithPrefix(lines, BytesOf(prefix));
    if k < 0 then ("", false) else (StringOf(lines[k]), true)
  }

  /** The loop of `findLineByPrefix`: splits on '\n' (no '\r' stripping, a
      trailing '\n' gives an empty last line) and returns at the first line
      that starts with the prefix bytes. */
  method FindLineByPrefix(data: Bytes, prefix: string) returns (line: string, found: bool)
    requires IsByteString(prefix)
    ensures (line, found) == FindLine(data, prefix)
  {
    var prefixBytes := BytesOf(prefix);
    var lines := Split(data, Newline);
    for i := 0 to |lines|
      invariant forall j | 0 <= j < i :: !HasPrefix(lines[j], prefixBytes)
    {
      if HasPrefix(lines[i], prefixBytes) {
        return StringOf(lines[i]), true;
      }
    }
    return "", false;
  }

  lemma HasPrefixStringOf(b: Bytes, s: string)
    requires IsByteString(s)
    ensures HasPrefix(StringOf(b), s) <==> HasPrefix(b, BytesOf(s))
  {
    if HasPrefix(b, BytesOf(s)) {
      forall i | 0 <= i < |s| ensures StringOf(b)[..|s|][i] == s[i] {
        assert b[..|s|][i] == BytesOf(s)[i];
      }
    }
    if HasPrefix(StringOf(b), s) {
      forall i | 0 <= i < |s| ensures b[..|s|][i] == BytesOf(s)[i] {
        assert StringOf(b)[..|s|][i] == s[i];
      }
    }
  }

  /** The line found is the first line with the prefix, starts with the
      prefix, holds no '\n', and occurs in the data; when no line has the
      prefix the result is ("", false). */
  lemma FindLineSpec(data: Bytes, prefix: string)
    requires IsByteString(prefix)
    ensures var (line, found) := FindLine(data, prefix);
            var lines := Split(data, Newline);
            && (found ==> exists k | 0 <= k < |lines| ::
                  && line == StringOf(lines[k])
                  && HasPrefix(lines[k], BytesOf(prefix))
                  && forall j | 0 <= j < k :: !HasPrefix(lines[j], BytesOf(prefix)))
            && (found ==> HasPrefix(line, prefix) && Newline !in BytesOf(line)
                          && Contains(data, BytesOf(line)))
            && (!found ==> line == "" && forall j | 0 <= j < |lines| :: !HasPrefix(lines[j], BytesOf(prefix)))
  {
    var lines := Split(data, Newline);
    var k := FirstWithPrefix(lines, BytesOf(prefix));
    if k >= 0 {
      HasPrefixStringOf(lines[k], prefix);
      BytesOfStringOf(lines[k]);
      JoinSplit(data, Newline);
      JoinOccurs(lines, [Newline], k);
    }
  }
}
