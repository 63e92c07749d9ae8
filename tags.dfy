/** The new `//go:build` line both generators write in place of the one
    they find: a few tags chosen by plain substring tests on the old line
    (never by parsing the build expression), joined with " && ".  The two
    generators differ only in the data of that choice, a `TagRule`. */
module BuildTags {
  import opened GoStrings

  /** What triggers a tag: `platforms` are the tokens that bring "js";
      "arm64" always brings "wasm"; each of `specials` is copied when the
      line contains it; `fallback` says whether an empty choice becomes
      "js". */
  datatype TagRule = TagRule(platforms: seq<string>, specials: seq<string>, fallback: bool)

  /** The prefix that marks the build line. */
  const BuildPrefix := "//go:build"

  /** The architecture token that brings "wasm". */
  const ArchToken := "arm64"

  /** Some platform token of the rule occurs in the line. */
  predicate PlatformMatch(platforms: seq<string>, line: string)
  {
    exists k | 0 <= k < |platforms| :: Contains(line, platforms[k])
  }

  /** The specials that occur in the line, in the rule's order. */
  function Present(specials: seq<string>, line: string): (tags: seq<string>)
    decreases |specials|
  {
    if |specials| == 0 then []
    else
      var last := specials[|specials| - 1];
      Present(specials[..|specials| - 1], line) + (if Contains(line, last) then [last] else [])
  }

  /** No special is chosen exactly when the line contains none of them. */
  lemma {:induction false} PresentEmpty(specials: seq<string>, line: string)
    ensures |Present(specials, line)| == 0 <==>
      forall k | 0 <= k < |specials| :: !Contains(line, specials[k])
    decreases |specials|
  {
    if |specials| > 0 {
      var init := specials[..|specials| - 1];
      PresentEmpty(init, line);
      assert forall k | 0 <= k < |init| :: init[k] == specials[k];
    }
  }

  /** One more special considered: `Present` of a longer prefix. */
  lemma PresentStep(specials: seq<string>, i: nat, line: string)
    requires i < |specials|
    ensures Present(specials[..i + 1], line)
         == Present(specials[..i], line) + (if Contains(line, specials[i]) then [specials[i]] else [])
  {
    assert specials[..i + 1][..i] == specials[..i];
  }

  /** The specials of a concatenated allow-list: those of each part. */
  lemma {:induction false} PresentConcat(xs: seq<string>, ys: seq<string>, line: string)
    ensures Present(xs + ys, line) == Present(xs, line) + Present(ys, line)
    decreases |ys|
  {
    if |ys| > 0 {
      var init := ys[..|ys| - 1];
      PresentConcat(xs, init, line);
      assert (xs + ys)[..|xs + ys| - 1] == xs + init;
    } else {
      assert xs + ys == xs;
    }
  }

  /** A one-element allow-list. */
  lemma PresentSingle(x: string, line: string)
    ensures Present([x], line) == if Contains(line, x) then [x] else []
  {
    assert [x][..0] == [];
  }

  /** The tags before the fallback: "js", then "wasm", then the specials. */
  function Matched(rule: TagRule, line: string): seq<string>
  {
    (if PlatformMatch(rule.platforms, line) then ["js"] else [])
    + (if Contains(line, ArchToken) then ["wasm"] else [])
    + Present(rule.specials, line)
  }

  /** Nothing is chosen exactly when no token of the rule occurs in the
      line. */
  lemma MatchedEmpty(rule: TagRule, line: string)
    ensures |Matched(rule, line)| == 0 <==>
      && !PlatformMatch(rule.platforms, line)
      && !Contains(line, ArchToken)
      && forall k | 0 <= k < |rule.specials| :: !Contains(line, rule.specials[k])
  {
    PresentEmpty(rule.specials, line);
  }

  /** The tag list of the new build line: with a fallback it is never
      empty; without one it is exactly what matched. */
  function Tags(rule: TagRule, line: string): (tags: seq<string>)
    ensures rule.fallback ==> |tags| > 0
    ensures !rule.fallback ==> tags == Matched(rule, line)
  {
    var tags := Matched(rule, line);
    if |tags| == 0 && rule.fallback then ["js"] else tags
  }

  /** The new build line. */
  function NewBuildLine(rule: TagRule, line: string): string
  {
    BuildPrefix + " " + Join(Tags(rule, line), " && ")
  }

  /** The generators' loop over the allow-list: each special the line
      contains is appended to `front`, in the allow-list's order. */
  method AppendPresent(front: seq<string>, specials: seq<string>, line: string) returns (tags: seq<string>)
    ensures tags == front + Present(specials, line)
  {
    tags := front;
    for i := 0 to |specials|
      invariant tags == front + Present(specials[..i], line)
    {
      PresentStep(specials, i, line);
      if Contains(line, specials[i]) {
        tags := tags + [specials[i]];
      }
    }
    assert specials[..|specials|] == specials;
  }

  /** The tag list as the generators build it: append "js", append
      "wasm", append the specials in turn, then apply the fallback. */
  method CollectTags(rule: TagRule, line: string) returns (tags: seq<string>)
    ensures tags == Tags(rule, line)
  {
    tags := [];
    if PlatformMatch(rule.platforms, line) {
      tags := tags + ["js"];
    }
    if Contains(line, ArchToken) {
      tags := tags + ["wasm"];
    }
    tags := AppendPresent(tags, rule.specials, line);
    assert tags == Matched(rule, line);
    if |tags| == 0 && rule.fallback {
      tags := tags + ["js"];
    }
  }

  // ------------------------------------------------------------------
  // What the tag list holds
  // ------------------------------------------------------------------

  /** A listed special is in the list exactly when the line contains it. */
  lemma {:induction false} PresentMembers(specials: seq<string>, line: string, t: string)
    ensures t in Present(specials, line) <==> t in specials && Contains(line, t)
    decreases |specials|
  {
    if |specials| > 0 {
      var init := specials[..|specials| - 1];
      PresentMembers(init, line, t);
      assert specials == init + [specials[|specials| - 1]];
    }
  }

  /** `a` is `b` with some elements left out, the rest in the same order. */
  predicate Subsequence<T(==)>(a: seq<T>, b: seq<T>)
    decreases |b|
  {
    if |a| == 0 then true
    else if |b| == 0 then false
    else if a[|a| - 1] == b[|b| - 1] then Subsequence(a[..|a| - 1], b[..|b| - 1])
    else Subsequence(a, b[..|b| - 1])
  }

  /** A subsequence stays one when the sequence grows at its end. */
  lemma {:induction false} SubsequenceExtend<T>(a: seq<T>, b: seq<T>, x: T)
    requires Subsequence(a, b)
    ensures Subsequence(a, b + [x])
    decreases |b|, 1
  {
    var b' := b + [x];
    assert b'[..|b'| - 1] == b;
    if |a| > 0 && a[|a| - 1] == x {
      SubsequenceDrop(a, b);
    }
  }

  /** Dropping the last element of a subsequence leaves a subsequence. */
  lemma {:induction false} SubsequenceDrop<T>(a: seq<T>, b: seq<T>)
    requires |a| > 0 && Subsequence(a, b)
    ensures Subsequence(a[..|a| - 1], b)
    decreases |b|, 0
  {
    var a', b' := a[..|a| - 1], b[..|b| - 1];
    assert b' + [b[|b| - 1]] == b;
    if a[|a| - 1] != b[|b| - 1] {
      SubsequenceDrop(a, b');
    }
    SubsequenceExtend(a', b', b[|b| - 1]);
  }

  /** The specials keep the rule's order: the list is a subsequence of the
      allow-list. */
  lemma {:induction false} PresentInOrder(specials: seq<string>, line: string)
    ensures Subsequence(Present(specials, line), specials)
    decreases |specials|
  {
    if |specials| > 0 {
      var init := specials[..|specials| - 1];
      var last := specials[|specials| - 1];
      PresentInOrder(init, line);
      var p := Present(init, line);
      assert specials == init + [last];
      if Contains(line, last) {
        assert (p + [last])[..|p|] == p;
      } else {
        assert Present(specials, line) == p;
        SubsequenceExtend(p, init, last);
      }
    }
  }

  /** The new line is again a build line. */
  lemma NewLineIsBuildLine(rule: TagRule, line: string)
    ensures HasPrefix(NewBuildLine(rule, line), BuildPrefix)
  {
  }

  /** When nothing matched, the new line is "//go:build js" with the
      fallback and "//go:build " (an empty expression) without. */
  lemma NothingMatched(rule: TagRule, line: string)
    requires |Matched(rule, line)| == 0
    ensures NewBuildLine(rule, line) == if rule.fallback then "//go:build js" else "//go:build "
  {
  }

  /** Subsequences concatenate. */
  lemma {:induction false} SubsequenceConcat<T>(a: seq<T>, b: seq<T>, c: seq<T>, d: seq<T>)
    requires Subsequence(a, b) && Subsequence(c, d)
    ensures Subsequence(a + c, b + d)
    decreases |d|
  {
    if |d| == 0 {
      assert a + c == a && b + d == b;
    } else if |c| == 0 {
      var d' := d[..|d| - 1];
      SubsequenceConcat(a, b, [], d');
      assert (b + d')  + [d[|d| - 1]] == b + d;
      assert a + c == a + [];
      SubsequenceExtend(a + [], b + d', d[|d| - 1]);
    } else {
      var c', d' := c[..|c| - 1], d[..|d| - 1];
      assert (a + c)[..|a + c| - 1] == a + c';
      assert (b + d)[..|b + d| - 1] == b + d';
      if c[|c| - 1] == d[|d| - 1] {
        SubsequenceConcat(a, b, c', d');
      } else {
        SubsequenceConcat(a, b, c, d');
      }
    }
  }

  /** Membership in the tag list: "js" for a platform token (or as the
      fallback), "wasm" for the architecture token, a special for itself. */
  lemma TagsMembers(rule: TagRule, line: string, t: string)
    ensures t in Tags(rule, line) <==>
      || (t == "js" && (PlatformMatch(rule.platforms, line) || (rule.fallback && |Matched(rule, line)| == 0)))
      || (t == "wasm" && Contains(line, ArchToken))
      || (t in rule.specials && Contains(line, t))
  {
    PresentMembers(rule.specials, line, t);
  }

  /** The fixed order: the tags are a subsequence of "js", "wasm" and the
      allow-list; the fallback list ["js"] is one too. */
  lemma TagsInOrder(rule: TagRule, line: string)
    ensures Subsequence(Tags(rule, line), ["js", "wasm"] + rule.specials)
  {
    if rule.fallback && |Matched(rule, line)| == 0 {
      FallbackInOrder(rule.specials);
    } else {
      MatchedInOrder(rule, line);
    }
  }

  /** The matched tags keep the order "js", "wasm", allow-list. */
  lemma MatchedInOrder(rule: TagRule, line: string)
    ensures Subsequence(Matched(rule, line), ["js", "wasm"] + rule.specials)
  {
    var js: seq<string> := if PlatformMatch(rule.platforms, line) then ["js"] else [];
    var wasm: seq<string> := if Contains(line, ArchToken) then ["wasm"] else [];
    SingleInOrder(js, "js");
    SingleInOrder(wasm, "wasm");
    PresentInOrder(rule.specials, line);
    GroupsInOrder(js, "js", wasm, "wasm", Present(rule.specials, line), rule.specials);
  }

  /** A list that is empty or just `t` is a subsequence of `[t]`. */
  lemma SingleInOrder<T>(x: seq<T>, t: T)
    requires x == [] || x == [t]
    ensures Subsequence(x, [t])
  {
    assert [t][..0] == [];
  }

  /** Three groups, each in order, are in order together. */
  lemma GroupsInOrder<T>(x: seq<T>, s: T, y: seq<T>, t: T, z: seq<T>, rest: seq<T>)
    requires Subsequence(x, [s]) && Subsequence(y, [t]) && Subsequence(z, rest)
    ensures Subsequence(x + y + z, [s, t] + rest)
  {
    SubsequenceConcat(x, [s], y, [t]);
    SubsequenceConcat(x + y, [s] + [t], z, rest);
    assert [s] + [t] == [s, t];
  }

  /** The fallback list ["js"] is in order too. */
  lemma FallbackInOrder(specials: seq<string>)
    ensures Subsequence(["js"], ["js", "wasm"] + specials)
  {
    var rest := ["wasm"] + specials;
    assert Subsequence(["js"], ["js"]);
    SubsequenceConcat(["js"], ["js"], [], rest);
    assert ["js"] + [] == ["js"] && ["js"] + rest == ["js", "wasm"] + specials;
  }

  /** Every tag of a rule is a byte string. */
  predicate ByteRule(rule: TagRule)
  {
    forall k | 0 <= k < |rule.specials| :: IsByteString(rule.specials[k])
  }

  /** The literals the new build line is made of are byte strings. */
  lemma LiteralBytes()
    ensures IsByteString("js") && IsByteString("wasm")
    ensures IsByteString(" && ") && IsByteString(BuildPrefix + " ")
  {
  }

  /** Chosen specials are byte strings when the allow-list's are. */
  lemma {:induction false} PresentBytes(specials: seq<string>, line: string)
    requires forall k | 0 <= k < |specials| :: IsByteString(specials[k])
    ensures forall k | 0 <= k < |Present(specials, line)| :: IsByteString(Present(specials, line)[k])
    decreases |specials|
  {
    if |specials| > 0 {
      PresentBytes(specials[..|specials| - 1], line);
    }
  }

  /** The new build line converts to bytes. */
  lemma NewBuildLineBytes(rule: TagRule, line: string)
    requires ByteRule(rule)
    ensures IsByteString(NewBuildLine(rule, line))
  {
    LiteralBytes();
    PresentBytes(rule.specials, line);
    var tags := Tags(rule, line);
    assert forall k | 0 <= k < |tags| :: IsByteString(tags[k]);
    JoinIsByteString(tags, " && ");
    GoStrings.AppendBytes(BuildPrefix + " ", Join(tags, " && "));
  }
}
