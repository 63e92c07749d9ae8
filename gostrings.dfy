/** The few string and byte-slice operations of Go's `strings`, `bytes` and
    `path/filepath` packages that the generators use, with the exact Go
    semantics for the cases that arise.  Every operation is generic over
    `seq<T>`, so that one definition serves both Go strings (`string` here)
    and byte slices (`Bytes`). */
module GoStrings {

  /** A byte; a Go `[]byte` is a `Bytes`. */
  newtype byte = b: int | 0 <= b < 256

  type Bytes = seq<byte>

  // ---------------------------------------------------------------------
  // Prefixes, suffixes and occurrences
  // ---------------------------------------------------------------------

  /** `strings.HasPrefix` / `bytes.HasPrefix`. */
  predicate HasPrefix<T(==)>(s: seq<T>, p: seq<T>)
    ensures HasPrefix(s, p) <==> |p| <= |s| && s[..|p|] == p
    decreases |p|
  {
    |p| == 0 || (|s| > 0 && s[0] == p[0] && HasPrefix(s[1..], p[1..]))
  }

  /** `strings.HasSuffix`. */
  predicate HasSuffix<T(==)>(s: seq<T>, p: seq<T>)
  {
    |p| <= |s| && s[|s| - |p|..] == p
  }

  /** `p` occurs in `s` starting at index `i`. */
  predicate Occurs<T(==)>(s: seq<T>, p: seq<T>, i: int)
  {
    0 <= i && i + |p| <= |s| && s[i..i + |p|] == p
  }

  lemma OccursShift<T>(s: seq<T>, n: nat, p: seq<T>, i: int)
    requires n <= |s| && i >= 0
    ensures Occurs(s[n..], p, i) <==> Occurs(s, p, i + n)
  {
    if i + n + |p| <= |s| {
      assert s[n..][i..i + |p|] == s[i + n..i + n + |p|];
    }
  }

  lemma OccursHead<T>(s: seq<T>, p: seq<T>)
    ensures Occurs(s, p, 0) <==> HasPrefix(s, p)
  {
  }

  lemma OccursEnds<T>(s: seq<T>, p: seq<T>, i: int)
    requires |p| > 0
    ensures Occurs(s, p, i) ==> s[i] == p[0] && s[i + |p| - 1] == p[|p| - 1]
  {
    if Occurs(s, p, i) {
      assert s[i..i + |p|][0] == s[i];
      assert s[i..i + |p|][|p| - 1] == s[i + |p| - 1];
    }
  }

  lemma OccursAppend<T>(a: seq<T>, b: seq<T>, p: seq<T>, i: int)
    ensures i >= |a| ==> (Occurs(a + b, p, i) <==> Occurs(b, p, i - |a|))
    ensures i + |p| <= |a| ==> (Occurs(a + b, p, i) <==> Occurs(a, p, i))
  {
    if i >= |a| && i + |p| <= |a + b| {
      assert (a + b)[i..i + |p|] == b[i - |a|..i - |a| + |p|];
    }
    if 0 <= i && i + |p| <= |a| {
      assert (a + b)[i..i + |p|] == a[i..i + |p|];
    }
  }

  /** `strings.Index` / `bytes.Index`: the first index at which `p` occurs
      in `s`, or -1 when it occurs nowhere. */
  function IndexOf<T(==)>(s: seq<T>, p: seq<T>): (k: int)
    ensures k == -1 || Occurs(s, p, k)
    ensures k == -1 ==> forall i :: !Occurs(s, p, i)
    ensures forall i | 0 <= i < k :: !Occurs(s, p, i)
    decreases |s|
  {
    OccursHead(s, p);
    if HasPrefix(s, p) then 0
    else if |s| == 0 then -1
    else
      var k := IndexOf(s[1..], p);
      assert forall i | i >= 1 :: Occurs(s, p, i) <==> Occurs(s[1..], p, i - 1) by {
        forall i | i >= 1 ensures Occurs(s, p, i) <==> Occurs(s[1..], p, i - 1) { OccursShift(s, 1, p, i - 1); }
      }
      if k < 0 then -1 else k + 1
  }

  /** `strings.Contains` / `bytes.Contains`. */
  predicate Contains<T(==)>(s: seq<T>, p: seq<T>)
    ensures Contains(s, p) <==> exists i :: Occurs(s, p, i)
  {
    IndexOf(s, p) >= 0
  }

  /** A cheap test for absence: no window of `s` begins and ends like `p`. */
  lemma NotContainsByEnds<T>(s: seq<T>, p: seq<T>)
    requires |p| > 0
    requires forall i | 0 <= i && i + |p| <= |s| :: s[i] != p[0] || s[i + |p| - 1] != p[|p| - 1]
    ensures !Contains(s, p)
  {
    forall i ensures !Occurs(s, p, i) { OccursEnds(s, p, i); }
  }

  /** An occurrence of `p` in `s` carries every element of `p` into `s`. */
  lemma ElementOfOccurrence<T>(s: seq<T>, p: seq<T>, c: T)
    requires c in p
    ensures Contains(s, p) ==> c in s
  {
    if Contains(s, p) {
      var i :| Occurs(s, p, i);
      var k :| 0 <= k < |p| && p[k] == c;
      assert s[i + k] == c;
    }
  }

  /** What occurs in an occurrence occurs in the whole. */
  lemma ContainsWithin<T>(s: seq<T>, p: seq<T>, q: seq<T>)
    requires Contains(s, p) && Contains(p, q)
    ensures Contains(s, q)
  {
    var i :| Occurs(s, p, i);
    var j :| Occurs(p, q, j);
    OccursWithin(s, p, q, i, j);
  }

  lemma OccursWithin<T>(s: seq<T>, p: seq<T>, q: seq<T>, i: int, j: int)
    requires Occurs(s, p, i) && Occurs(p, q, j)
    ensures Occurs(s, q, i + j)
  {
    assert forall t | 0 <= t < |p| :: p[t] == s[i + t];
    assert forall t | 0 <= t < |q| :: q[t] == p[j + t];
    assert s[i + j..i + j + |q|] == q;
  }

  /** An element of `p` that `s` lacks rules out every occurrence of `p`. */
  lemma MissingElement<T>(s: seq<T>, p: seq<T>, c: T)
    requires c in p && c !in s
    ensures !Contains(s, p)
  {
    ElementOfOccurrence(s, p, c);
  }

  /** No element of `a` is an element of `b`. */
  predicate NoCommonElement<T(==)>(a: seq<T>, b: seq<T>)
  {
    forall i, j | 0 <= i < |a| && 0 <= j < |b| :: a[i] != b[j]
  }

  /** Appending elements foreign to a non-empty `p` creates no occurrence of
      `p`: an occurrence that reaches into `b` ends on an element of `b`. */
  lemma AppendForeign<T>(a: seq<T>, b: seq<T>, p: seq<T>)
    requires |p| > 0 && NoCommonElement(b, p) && !Contains(a, p)
    ensures !Contains(a + b, p)
  {
    forall i ensures !Occurs(a + b, p, i) {
      OccursAppend(a, b, p, i);
      OccursEnds(a + b, p, i);
      if 0 <= i && |a| < i + |p| <= |a + b| {
        assert (a + b)[i + |p| - 1] == b[i + |p| - 1 - |a|];
      }
    }
  }

  /** `strings.TrimSuffix`. */
  function TrimSuffix<T(==)>(s: seq<T>, suffix: seq<T>): (r: seq<T>)
    ensures HasSuffix(s, suffix) ==> r + suffix == s
    ensures !HasSuffix(s, suffix) ==> r == s
  {
    if HasSuffix(s, suffix) then s[..|s| - |suffix|] else s
  }

  /** `filepath.Ext`: the suffix of `path` that starts at the last '.' of
      its final element, or "" when that element has no '.'. */
  function Ext(path: string): (e: string)
    ensures HasSuffix(path, e)
    ensures e != [] ==> e[0] == '.' && forall k | 1 <= k < |e| :: e[k] != '.' && e[k] != '/'
    ensures e == [] ==> forall k | 0 <= k < |path| && path[k] == '.' :: exists j | k < j < |path| :: path[j] == '/'
    decreases |path|
  {
    if |path| == 0 || path[|path| - 1] == '/' then ""
    else if path[|path| - 1] == '.' then "."
    else
      var e := Ext(path[..|path| - 1]);
      if e == "" then "" else e + [path[|path| - 1]]
  }

  /** Every name the generators list ends in ".go", which is its extension. */
  lemma ExtGo(x: string)
    ensures Ext(x + ".go") == ".go" && TrimSuffix(x + ".go", Ext(x + ".go")) == x
  {
    var f := x + ".go";
    var g := x + ".g";
    var d := x + ".";
    assert d[|d| - 1] == '.';
    assert Ext(d) == ".";
    assert g[..|g| - 1] == d && g[|g| - 1] == 'g';
    assert Ext(g) == ".g";
    assert f[..|f| - 1] == g && f[|f| - 1] == 'o';
    assert Ext(f) == ".go";
    assert HasSuffix(f, ".go");
    assert f[..|f| - 3] == x;
  }

  // ---------------------------------------------------------------------
  // strings.ReplaceAll
  // ---------------------------------------------------------------------

  /** `strings.ReplaceAll(s, pat, rep)` for a non-empty `pat`: scans left to
      right and replaces non-overlapping occurrences. */
  function ReplaceAll<T(==)>(s: seq<T>, pat: seq<T>, rep: seq<T>): seq<T>
    requires |pat| > 0
    decreases |s|
  {
    if |s| == 0 then s
    else if HasPrefix(s, pat) then rep + ReplaceAll(s[|pat|..], pat, rep)
    else [s[0]] + ReplaceAll(s[1..], pat, rep)
  }

  /** With no occurrence of `pat`, ReplaceAll changes nothing. */
  lemma {:induction false} ReplaceAllAbsent<T>(s: seq<T>, pat: seq<T>, rep: seq<T>)
    requires |pat| > 0 && !Contains(s, pat)
    ensures ReplaceAll(s, pat, rep) == s
    decreases |s|
  {
    if |s| > 0 {
      OccursHead(s, pat);
      forall i | i >= 0 ensures !Occurs(s[1..], pat, i) { OccursShift(s, 1, pat, i); }
      ReplaceAllAbsent(s[1..], pat, rep);
      assert [s[0]] + s[1..] == s;
    }
  }

  /** Splitting off a leading part `a` in which no occurrence of `pat`
      starts: `a` is copied unchanged, then the occurrence right after it is
      replaced. */
  lemma {:induction false} ReplaceAllOnce<T>(a: seq<T>, b: seq<T>, pat: seq<T>, rep: seq<T>)
    requires |pat| > 0 && !Contains(a + pat[..|pat| - 1], pat)
    ensures ReplaceAll(a + pat + b, pat, rep) == a + rep + ReplaceAll(b, pat, rep)
    decreases |a|
  {
    var s := a + pat + b;
    if |a| == 0 {
      assert s == pat + b;
      assert s[|pat|..] == b;
    } else {
      NoMatchShift(a, b, pat);
      assert s[1..] == a[1..] + pat + b;
      ReplaceAllOnce(a[1..], b, pat, rep);
      assert [a[0]] + a[1..] == a;
    }
  }

  /** No occurrence starts at the head of `a`, nor anywhere in its tail. */
  lemma NoMatchShift<T>(a: seq<T>, b: seq<T>, pat: seq<T>)
    requires |a| > 0 && |pat| > 0 && !Contains(a + pat[..|pat| - 1], pat)
    ensures !HasPrefix(a + pat + b, pat) && !Contains(a[1..] + pat[..|pat| - 1], pat)
  {
    var s := a + pat + b;
    var t := a + pat[..|pat| - 1];
    assert !Occurs(t, pat, 0);
    assert t[..|pat|] == s[..|pat|];
    var t1 := t[1..];
    assert a[1..] + pat[..|pat| - 1] == t1;
    forall i | i >= 0 ensures !Occurs(t1, pat, i) { OccursShift(t, 1, pat, i); }
  }

  /** The only occurrence of `pat` in `a + pat + b` is replaced, and nothing
      else changes. */
  lemma ReplaceAllSingle<T>(a: seq<T>, b: seq<T>, pat: seq<T>, rep: seq<T>)
    requires |pat| > 0 && forall i | Occurs(a + pat + b, pat, i) :: i == |a|
    ensures ReplaceAll(a + pat + b, pat, rep) == a + rep + b
  {
    OnlyOccurrence(a, pat, b);
    ReplaceAllOnce(a, b, pat, rep);
    ReplaceAllAbsent(b, pat, rep);
  }

  /** When `pat` occurs in `a + pat + b` only at `|a|`, no occurrence starts
      in `a` and none lies in `b`. */
  lemma OnlyOccurrence<T>(a: seq<T>, pat: seq<T>, b: seq<T>)
    requires |pat| > 0 && forall i | Occurs(a + pat + b, pat, i) :: i == |a|
    ensures !Contains(a + pat[..|pat| - 1], pat) && !Contains(b, pat)
  {
    var s, t := a + pat + b, a + pat[..|pat| - 1];
    assert s == t + ([pat[|pat| - 1]] + b);
    forall i ensures !Occurs(t, pat, i) {
      OccursAppend(t, [pat[|pat| - 1]] + b, pat, i);
    }
    forall j ensures !Occurs(b, pat, j) {
      OccursAppend(a + pat, b, pat, j + |a + pat|);
    }
  }

  /** An element that `pat` holds only at index `k`, and that neither `a`
      nor `b` holds, pins every occurrence of `pat` in `a + pat + b` to
      `|a|`. */
  lemma OccurrenceAtMark<T>(a: seq<T>, pat: seq<T>, b: seq<T>, k: nat)
    requires k < |pat| && pat[k] !in a && pat[k] !in b
    requires forall j | 0 <= j < |pat| && j != k :: pat[j] != pat[k]
    ensures forall i | Occurs(a + pat + b, pat, i) :: i == |a|
  {
    var s := a + pat + b;
    forall i | Occurs(s, pat, i) ensures i == |a| {
      assert s[i..i + |pat|][k] == s[i + k] == pat[k];
      if |a| <= i + k < |a| + |pat| {
        assert s[i + k] == pat[i + k - |a|];
      }
    }
  }

  /** Swapping a middle part for one sharing no element with a non-empty
      `p` creates no occurrence of `p`. */
  lemma ForeignSwap<T>(x: seq<T>, m1: seq<T>, m2: seq<T>, y: seq<T>, p: seq<T>)
    requires |p| > 0 && |m2| > 0 && NoCommonElement(m2, p) && !Contains(x + m1 + y, p)
    ensures !Contains(x + m2 + y, p)
  {
    forall i ensures !Occurs(x, p, i) {
      OccursAppend(x, m1 + y, p, i);
      assert x + m1 + y == x + (m1 + y);
    }
    forall j ensures !Occurs(y, p, j) {
      OccursAppend(x + m1, y, p, j + |x + m1|);
    }
    AppendForeign(x, m2, p);
    PrependForeign(m2, y, p);
    var s := x + m2 + y;
    assert s == x + (m2 + y);
    forall i ensures !Occurs(s, p, i) {
      OccursAppend(x + m2, y, p, i);
      OccursAppend(x, m2 + y, p, i);
      if 0 <= i < |x| && |x + m2| < i + |p| <= |s| && s[i..i + |p|] == p {
        assert s[|x|] == m2[0];
        assert p[|x| - i] == s[|x|];
      }
    }
  }

  /** Prepending elements foreign to a non-empty `p` creates no occurrence
      of `p`: an occurrence that reaches into `a` starts on an element of
      `a`. */
  lemma PrependForeign<T>(a: seq<T>, b: seq<T>, p: seq<T>)
    requires |p| > 0 && NoCommonElement(a, p) && !Contains(b, p)
    ensures !Contains(a + b, p)
  {
    forall i ensures !Occurs(a + b, p, i) {
      OccursAppend(a, b, p, i);
      OccursEnds(a + b, p, i);
      if 0 <= i < |a| && i + |p| <= |a + b| {
        assert (a + b)[i] == a[i];
      }
    }
  }

  /** Whatever follows, the prefix `q` of a ReplaceAll result comes from the
      input when `q` does not hold the first element of `rep`. */
  lemma {:induction false} ReplaceAllPrefixBack<T>(t: seq<T>, pat: seq<T>, rep: seq<T>, q: seq<T>)
    requires |pat| > 0 && |rep| > 0 && rep[0] !in q
    requires HasPrefix(ReplaceAll(t, pat, rep), q)
    ensures HasPrefix(t, q)
    decreases |t|
  {
    if |q| > 0 && |t| > 0 && !HasPrefix(t, pat) {
      var r := ReplaceAll(t[1..], pat, rep);
      assert ReplaceAll(t, pat, rep) == [t[0]] + r;
      assert HasPrefix(r, q[1..]);
      ReplaceAllPrefixBack(t[1..], pat, rep, q[1..]);
    }
  }

  /** An occurrence of `x` at the head of a ReplaceAll result whose first
      element was copied comes from the input, when `x[1..]` does not hold
      the first element of `rep`. */
  lemma HeadOccurrenceBack<T>(s: seq<T>, pat: seq<T>, rep: seq<T>, x: seq<T>)
    requires |s| > 0 && |pat| > 0 && |rep| > 0 && |x| > 0 && rep[0] !in x[1..]
    ensures Occurs([s[0]] + ReplaceAll(s[1..], pat, rep), x, 0) ==> Occurs(s, x, 0)
  {
    var r := ReplaceAll(s[1..], pat, rep);
    var whole := [s[0]] + r;
    if Occurs(whole, x, 0) {
      assert whole[..|x|] == x;
      assert r[..|x| - 1] == whole[1..|x|];
      assert HasPrefix(r, x[1..]);
      ReplaceAllPrefixBack(s[1..], pat, rep, x[1..]);
      assert s[..|x|] == [s[0]] + s[1..][..|x| - 1];
    }
  }

  lemma NoCommonTail<T>(rep: seq<T>, x: seq<T>)
    requires |rep| > 0 && |x| > 0 && NoCommonElement(rep, x)
    ensures rep[0] !in x[1..]
  {
    forall j | 0 <= j < |x| - 1 ensures x[1..][j] != rep[0] {
      assert x[1..][j] == x[j + 1];
    }
  }

  /** Replacing `pat` by `rep` cannot create an occurrence of `x` when no
      element of `rep` is an element of `x`. */
  lemma {:induction false} ReplaceAllKeepsAbsent<T>(s: seq<T>, pat: seq<T>, rep: seq<T>, x: seq<T>)
    requires |pat| > 0 && |rep| > 0 && |x| > 0
    requires NoCommonElement(rep, x) && !Contains(s, x)
    ensures !Contains(ReplaceAll(s, pat, rep), x)
    decreases |s|
  {
    if |s| == 0 {
    } else if HasPrefix(s, pat) {
      var s' := s[|pat|..];
      forall i | i >= 0 ensures !Occurs(s', x, i) { OccursShift(s, |pat|, x, i); }
      ReplaceAllKeepsAbsent(s', pat, rep, x);
      var r := ReplaceAll(s', pat, rep);
      forall i ensures !Occurs(rep + r, x, i) {
        OccursAppend(rep, r, x, i);
        OccursEnds(rep + r, x, i);
        if 0 <= i < |rep| {
          assert (rep + r)[i] == rep[i];
        }
      }
    } else {
      forall i | i >= 0 ensures !Occurs(s[1..], x, i) { OccursShift(s, 1, x, i); }
      ReplaceAllKeepsAbsent(s[1..], pat, rep, x);
      var r := ReplaceAll(s[1..], pat, rep);
      var whole := [s[0]] + r;
      NoCommonTail(rep, x);
      HeadOccurrenceBack(s, pat, rep, x);
      assert whole[1..] == r;
      forall i | i >= 1 ensures !Occurs(whole, x, i) { OccursShift(whole, 1, x, i - 1); }
    }
  }

  /** ReplaceAll introduces no element foreign to both `s` and `rep`. */
  lemma {:induction false} ReplaceAllAvoids<T>(s: seq<T>, pat: seq<T>, rep: seq<T>, c: T)
    requires |pat| > 0 && c !in s && c !in rep
    ensures c !in ReplaceAll(s, pat, rep)
    decreases |s|
  {
    if |s| == 0 {
    } else if HasPrefix(s, pat) {
      assert forall k | 0 <= k < |s| - |pat| :: s[|pat|..][k] == s[k + |pat|];
      ReplaceAllAvoids(s[|pat|..], pat, rep, c);
    } else {
      assert forall k | 0 <= k < |s| - 1 :: s[1..][k] == s[k + 1];
      ReplaceAllAvoids(s[1..], pat, rep, c);
    }
  }

  /** Replacing back undoes ReplaceAll when the replacement's first element
      never occurs in `s`: then every occurrence of `rep` in the result is
      one that ReplaceAll put there. */
  lemma {:induction false} ReplaceAllInverse<T>(s: seq<T>, pat: seq<T>, rep: seq<T>)
    requires |pat| > 0 && |rep| > 0 && rep[0] !in s
    ensures ReplaceAll(ReplaceAll(s, pat, rep), rep, pat) == s
    decreases |s|
  {
    if |s| == 0 {
    } else if HasPrefix(s, pat) {
      var t := s[|pat|..];
      assert forall k | 0 <= k < |t| :: t[k] == s[k + |pat|];
      ReplaceAllInverse(t, pat, rep);
      var r := ReplaceAll(t, pat, rep);
      assert (rep + r)[..|rep|] == rep;
      assert (rep + r)[|rep|..] == r;
      assert s[..|pat|] + t == s;
    } else {
      var t := s[1..];
      assert forall k | 0 <= k < |t| :: t[k] == s[k + 1];
      ReplaceAllInverse(t, pat, rep);
      var r := ReplaceAll(t, pat, rep);
      assert ([s[0]] + r)[0] != rep[0];
      assert ([s[0]] + r)[1..] == r;
      assert [s[0]] + t == s;
    }
  }

  /** No occurrence of `pat` starts inside `rep`, whatever follows it: no
      non-empty suffix of `rep` is a prefix of `pat`, nor starts with `pat`. */
  predicate NoOverlapFromRep<T(==)>(pat: seq<T>, rep: seq<T>)
  {
    forall i | 0 <= i < |rep| :: !HasPrefix(pat, rep[i..]) && !HasPrefix(rep[i..], pat)
  }

  lemma OccursInRep<T>(rep: seq<T>, r: seq<T>, pat: seq<T>, i: int)
    requires 0 <= i < |rep|
    ensures Occurs(rep + r, pat, i) ==> HasPrefix(pat, rep[i..]) || HasPrefix(rep[i..], pat)
  {
    if Occurs(rep + r, pat, i) {
      if |rep| - i >= |pat| {
        assert (rep + r)[i..i + |pat|] == rep[i..][..|pat|];
      } else {
        assert (rep + r)[i..i + |pat|][..|rep| - i] == rep[i..];
      }
    }
  }

  /** Under the overlap conditions that hold for "linux"/"js" and
      "arm64"/"wasm", ReplaceAll leaves no occurrence of `pat`. */
  lemma {:induction false} ReplaceAllRemoves<T>(s: seq<T>, pat: seq<T>, rep: seq<T>)
    requires |pat| > 0 && |rep| > 0
    requires NoOverlapFromRep(pat, rep) && rep[0] !in pat[1..]
    ensures !Contains(ReplaceAll(s, pat, rep), pat)
    decreases |s|
  {
    if |s| == 0 {
    } else if HasPrefix(s, pat) {
      var r := ReplaceAll(s[|pat|..], pat, rep);
      ReplaceAllRemoves(s[|pat|..], pat, rep);
      forall i ensures !Occurs(rep + r, pat, i) {
        OccursAppend(rep, r, pat, i);
        if 0 <= i < |rep| {
          OccursInRep(rep, r, pat, i);
        }
      }
    } else {
      ReplaceAllRemoves(s[1..], pat, rep);
      var r := ReplaceAll(s[1..], pat, rep);
      var whole := [s[0]] + r;
      OccursHead(s, pat);
      HeadOccurrenceBack(s, pat, rep, pat);
      assert whole[1..] == r;
      forall i | i >= 1 ensures !Occurs(whole, pat, i) { OccursShift(whole, 1, pat, i - 1); }
    }
  }

  /** An occurrence of `pat` is always replaced: the result holds `rep`. */
  lemma {:induction false} ReplaceAllInserts<T>(s: seq<T>, pat: seq<T>, rep: seq<T>)
    requires |pat| > 0 && Contains(s, pat)
    ensures Contains(ReplaceAll(s, pat, rep), rep)
    decreases |s|
  {
    if HasPrefix(s, pat) {
      assert Occurs(ReplaceAll(s, pat, rep), rep, 0);
    } else {
      OccursHead(s, pat);
      var i :| Occurs(s, pat, i);
      OccursShift(s, 1, pat, i - 1);
      ReplaceAllInserts(s[1..], pat, rep);
      var r := ReplaceAll(s[1..], pat, rep);
      var j :| Occurs(r, rep, j);
      assert ([s[0]] + r)[1..] == r;
      OccursShift([s[0]] + r, 1, rep, j);
    }
  }

  /** A prefix sharing no element with `pat` passes through ReplaceAll. */
  lemma {:induction false} ReplaceAllPrefixKept<T>(s: seq<T>, pat: seq<T>, rep: seq<T>, q: seq<T>)
    requires |pat| > 0 && NoCommonElement(q, pat) && HasPrefix(s, q)
    ensures HasPrefix(ReplaceAll(s, pat, rep), q)
    decreases |s|
  {
    if |q| > 0 {
      assert !HasPrefix(s, pat) by { assert s[0] == q[0]; }
      assert s[1..][..|q| - 1] == q[1..];
      ReplaceAllPrefixKept(s[1..], pat, rep, q[1..]);
    }
  }

  /** An occurrence of `x` sharing no element with `pat` survives ReplaceAll. */
  lemma {:induction false} ReplaceAllKeepsForeign<T>(s: seq<T>, pat: seq<T>, rep: seq<T>, x: seq<T>)
    requires |pat| > 0 && |x| > 0 && NoCommonElement(x, pat) && Contains(s, x)
    ensures Contains(ReplaceAll(s, pat, rep), x)
    decreases |s|
  {
    var i :| Occurs(s, x, i);
    if i == 0 {
      ReplaceAllPrefixKept(s, pat, rep, x);
      assert Occurs(ReplaceAll(s, pat, rep), x, 0);
    } else if HasPrefix(s, pat) {
      var s' := s[|pat|..];
      forall k | 0 <= k < |pat| ensures s[k] == pat[k] {
        assert s[..|pat|][k] == s[k];
      }
      assert i >= |pat| by {
        OccursEnds(s, x, i);
      }
      OccursShift(s, |pat|, x, i - |pat|);
      ReplaceAllKeepsForeign(s', pat, rep, x);
      var r := ReplaceAll(s', pat, rep);
      var j :| Occurs(r, x, j);
      OccursAppend(rep, r, x, j + |rep|);
    } else {
      OccursShift(s, 1, x, i - 1);
      ReplaceAllKeepsForeign(s[1..], pat, rep, x);
      var r := ReplaceAll(s[1..], pat, rep);
      var j :| Occurs(r, x, j);
      assert ([s[0]] + r)[1..] == r;
      OccursShift([s[0]] + r, 1, x, j);
    }
  }

  // ---------------------------------------------------------------------
  // bytes.Replace(s, pat, rep, 1)
  // ---------------------------------------------------------------------

  /** `bytes.Replace(s, pat, rep, 1)`: only the first occurrence of `pat` is
      replaced; without one, `s` is returned unchanged. */
  function ReplaceFirst<T(==)>(s: seq<T>, pat: seq<T>, rep: seq<T>): seq<T>
  {
    var k := IndexOf(s, pat);
    if k < 0 then s else s[..k] + rep + s[k + |pat|..]
  }

  /** `r` is `s` with `rep` spliced over the earliest occurrence of `pat`,
      which starts at `k`. */
  predicate SplicedAtFirst<T(==)>(s: seq<T>, pat: seq<T>, rep: seq<T>, r: seq<T>, k: int)
  {
    && Occurs(s, pat, k)
    && (forall j | 0 <= j < k :: !Occurs(s, pat, j))
    && r == s[..k] + rep + s[k + |pat|..]
  }

  /** ReplaceFirst either finds nothing and returns its input, or splices
      `rep` over the earliest occurrence and keeps all bytes before and
      after it. */
  lemma ReplaceFirstSpec<T>(s: seq<T>, pat: seq<T>, rep: seq<T>)
    ensures !Contains(s, pat) ==> ReplaceFirst(s, pat, rep) == s
    ensures Contains(s, pat) ==> exists k :: SplicedAtFirst(s, pat, rep, ReplaceFirst(s, pat, rep), k)
  {
    var k := IndexOf(s, pat);
    if k >= 0 {
      assert SplicedAtFirst(s, pat, rep, ReplaceFirst(s, pat, rep), k);
    }
  }

  /** When no occurrence of `pat` starts in `a`, ReplaceFirst replaces the
      occurrence right after `a`. */
  lemma ReplaceFirstAfter<T>(a: seq<T>, b: seq<T>, pat: seq<T>, rep: seq<T>)
    requires |pat| > 0 && !Contains(a + pat[..|pat| - 1], pat)
    ensures ReplaceFirst(a + pat + b, pat, rep) == a + rep + b
  {
    var s := a + pat + b;
    var t := a + pat[..|pat| - 1];
    assert s[|a|..|a| + |pat|] == pat;
    forall j | 0 <= j < |a| ensures !Occurs(s, pat, j) {
      assert !Occurs(t, pat, j);
      if j + |pat| <= |s| { assert s[j..j + |pat|] == t[j..j + |pat|]; }
    }
    assert Occurs(s, pat, |a|);
    var k := IndexOf(s, pat);
    assert k == |a|;
    assert s[..k] == a && s[k + |pat|..] == b;
  }

  // ---------------------------------------------------------------------
  // bytes.Split on a one-element separator, strings.Join
  // ---------------------------------------------------------------------

  /** `bytes.Split(s, []byte{sep})`: the maximal separator-free segments, in
      order; an empty input and a trailing separator both give an empty
      segment. */
  function Split<T(==)>(s: seq<T>, sep: T): (parts: seq<seq<T>>)
    ensures |parts| > 0
    ensures forall k | 0 <= k < |parts| :: sep !in parts[k]
    decreases |s|
  {
    if |s| == 0 then [[]]
    else
      var rest := Split(s[1..], sep);
      if s[0] == sep then [[]] + rest
      else [[s[0]] + rest[0]] + rest[1..]
  }

  /** `strings.Join(parts, sep)`. */
  function Join<T>(parts: seq<seq<T>>, sep: seq<T>): seq<T>
    decreases |parts|
  {
    if |parts| == 0 then []
    else if |parts| == 1 then parts[0]
    else parts[0] + sep + Join(parts[1..], sep)
  }

  /** Join of two and of three parts, written out. */
  lemma JoinSmall<T>(parts: seq<seq<T>>, sep: seq<T>)
    ensures |parts| == 2 ==> Join(parts, sep) == parts[0] + sep + parts[1]
    ensures |parts| == 3 ==> Join(parts, sep) == parts[0] + sep + parts[1] + sep + parts[2]
  {
    if |parts| == 3 {
      assert parts[1..][1..] == parts[2..];
    }
  }

  /** Split is undone by Join: no byte is dropped or added by the split. */
  lemma {:induction false} JoinSplit<T>(s: seq<T>, sep: T)
    ensures Join(Split(s, sep), [sep]) == s
    decreases |s|
  {
    if |s| > 0 {
      var rest := Split(s[1..], sep);
      JoinSplit(s[1..], sep);
      if s[0] == sep {
        assert ([[]] + rest)[1..] == rest;
      } else {
        var parts := [[s[0]] + rest[0]] + rest[1..];
        if |rest| > 1 {
          assert parts[1..] == rest[1..];
          assert Join(rest, [sep]) == rest[0] + [sep] + Join(rest[1..], [sep]);
        }
      }
    }
  }

  /** The segments of a split are found back in the input: segment `k`
      starts at `Offset(parts, k)` of the joined text. */
  function Offset<T>(parts: seq<seq<T>>, sepLength: nat, k: nat): nat
    requires k <= |parts|
  {
    if k == 0 then 0 else Offset(parts, sepLength, k - 1) + |parts[k - 1]| + sepLength
  }

  lemma {:induction false} JoinOccurs<T>(parts: seq<seq<T>>, sep: seq<T>, k: nat)
    requires k < |parts|
    ensures Occurs(Join(parts, sep), parts[k], Offset(parts, |sep|, k))
    decreases k
  {
    if k == 0 {
      if |parts| > 1 {
        assert Join(parts, sep)[..|parts[0]|] == parts[0];
      }
    } else {
      JoinOccurs(parts[1..], sep, k - 1);
      OffsetTail(parts, |sep|, k);
      var rest := Join(parts[1..], sep);
      var o := Offset(parts[1..], |sep|, k - 1);
      var d := |parts[0]| + |sep|;
      assert rest[o..o + |parts[k]|] == parts[k];
      assert Join(parts, sep) == parts[0] + sep + rest;
      assert (parts[0] + sep + rest)[o + d..o + d + |parts[k]|] == rest[o..o + |parts[k]|];
    }
  }

  lemma {:induction false} OffsetTail<T>(parts: seq<seq<T>>, sepLength: nat, k: nat)
    requires 0 < k <= |parts|
    ensures Offset(parts, sepLength, k) == |parts[0]| + sepLength + Offset(parts[1..], sepLength, k - 1)
    decreases k
  {
    if k > 1 {
      OffsetTail(parts, sepLength, k - 1);
    }
  }

  /** Replacing the first occurrence of a segment's text, when none starts
      before the segment itself, swaps exactly that segment: the bytes
      before and after it are kept. */
  lemma ReplaceFirstSegment<T>(parts: seq<seq<T>>, sep: seq<T>, k: nat, x: seq<T>)
    requires k < |parts|
    requires forall j | 0 <= j < Offset(parts, |sep|, k) :: !Occurs(Join(parts, sep), parts[k], j)
    ensures SplicedAtFirst(Join(parts, sep), parts[k], x, ReplaceFirst(Join(parts, sep), parts[k], x),
                           Offset(parts, |sep|, k))
  {
    JoinOccurs(parts, sep, k);
    FirstOccurrence(Join(parts, sep), parts[k], x, Offset(parts, |sep|, k));
  }

  /** An occurrence with none before it is the one ReplaceFirst splices. */
  lemma FirstOccurrence<T>(s: seq<T>, p: seq<T>, x: seq<T>, o: int)
    requires Occurs(s, p, o) && forall j | 0 <= j < o :: !Occurs(s, p, j)
    ensures SplicedAtFirst(s, p, x, ReplaceFirst(s, p, x), o)
  {
    assert IndexOf(s, p) == o;
  }

  // ---------------------------------------------------------------------
  // Conversions between Go strings and byte slices
  // ---------------------------------------------------------------------

  /** Every char of `s` stands for one byte. */
  predicate IsByteString(s: string)
  {
    forall i | 0 <= i < |s| :: s[i] as int < 256
  }

  /** Go's `string(b)`: the same bytes, read as a string. */
  function StringOf(b: Bytes): (s: string)
    ensures |s| == |b| && IsByteString(s)
    ensures forall i | 0 <= i < |b| :: s[i] as int == b[i] as int
  {
    seq(|b|, i requires 0 <= i < |b| => b[i] as int as char)
  }

  /** Go's `[]byte(s)` for a string whose chars are bytes. */
  function BytesOf(s: string): (b: Bytes)
    requires IsByteString(s)
    ensures |b| == |s|
    ensures forall i | 0 <= i < |s| :: b[i] as int == s[i] as int
  {
    seq(|s|, i requires 0 <= i < |s| => s[i] as int as byte)
  }

  lemma BytesOfStringOf(b: Bytes)
    ensures BytesOf(StringOf(b)) == b
  {
  }

  lemma StringOfBytesOf(s: string)
    requires IsByteString(s)
    ensures StringOf(BytesOf(s)) == s
  {
  }

  lemma JoinIsByteString(parts: seq<string>, sep: string)
    requires IsByteString(sep) && forall k | 0 <= k < |parts| :: IsByteString(parts[k])
    ensures IsByteString(Join(parts, sep))
    decreases |parts|
  {
    if |parts| > 1 {
      JoinIsByteString(parts[1..], sep);
    }
  }

  lemma AppendBytes(a: string, b: string)
    requires IsByteString(a) && IsByteString(b)
    ensures IsByteString(a + b)
  {
  }
}
