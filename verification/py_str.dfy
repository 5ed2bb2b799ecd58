/** The few operations on Python `str` values that the buffered token stream
    relies on, with Python's semantics: slicing past the end, `find`,
    `lstrip()`, `" ".join(...)` and `split(" ")`. */
module PyStr {

  /** Python's `str.isspace` for a single character: the characters Python's
      Unicode database classifies as whitespace, which is what a bare
      `lstrip()` removes. */
  predicate IsSpace(c: char)
  {
    || ('\t' <= c <= '\r')
    || ('\U{1C}' <= c <= '\U{1F}')
    || c == ' '
    || c == '\U{85}'
    || c == '\U{A0}'
    || c == '\U{1680}'
    || ('\U{2000}' <= c <= '\U{200A}')
    || c == '\U{2028}'
    || c == '\U{2029}'
    || c == '\U{202F}'
    || c == '\U{205F}'
    || c == '\U{3000}'
  }

  function Min(a: int, b: int): int { if a < b then a else b }

  function Max(a: int, b: int): int { if a < b then b else a }

  /** `a` is what is left of `b` after cutting off some prefix. */
  predicate IsSuffix(a: string, b: string)
  {
    |a| <= |b| && b[|b| - |a|..] == a
  }

  lemma SuffixTransitive(a: string, b: string, c: string)
    requires IsSuffix(a, b) && IsSuffix(b, c)
    ensures IsSuffix(a, c)
  {
    assert c[|c| - |a|..] == c[|c| - |b|..][|b| - |a|..];
  }

  /** Python's `s[j:]` for a non-negative `j`: past the end it is empty. */
  function SliceFrom(s: string, j: nat): (r: string)
    ensures |r| == |s| - Min(j, |s|)
  {
    s[Min(j, |s|)..]
  }

  /** `t` occurs in `s` starting at index `i`. */
  predicate OccursAt(s: string, t: string, i: int)
  {
    0 <= i && i + |t| <= |s| && s[i..i + |t|] == t
  }

  /** Python's `s.find(t)`: the least index at which `t` occurs in `s`, or -1
      when it occurs nowhere (FindIsFirst states this). */
  function Find(s: string, t: string): (r: int)
    ensures r == -1 || (0 <= r && r + |t| <= |s|)
  {
    FindFrom(s, t, 0)
  }

  /** The characters of `t` from index `j` on occur in `s` from index
      `k + j` on. */
  predicate MatchFrom(s: string, t: string, k: nat, j: nat)
    requires j <= |t|
    decreases |t| - j
  {
    j == |t| || (k + j < |s| && s[k + j] == t[j] && MatchFrom(s, t, k, j + 1))
  }

  /** The least index `i >= k` at which `t` occurs in `s`, or -1. */
  function FindFrom(s: string, t: string, k: nat): (r: int)
    ensures r == -1 || (k <= r && r + |t| <= |s|)
    decreases |s| - k
  {
    if k + |t| > |s| then -1
    else if MatchFrom(s, t, k, 0) then k
    else FindFrom(s, t, k + 1)
  }

  lemma {:induction false} MatchFromSpec(s: string, t: string, k: nat, j: nat)
    requires j <= |t| && k + |t| <= |s|
    ensures MatchFrom(s, t, k, j) <==> forall i :: j <= i < |t| ==> s[k + i] == t[i]
    decreases |t| - j
  {
    if j < |t| {
      MatchFromSpec(s, t, k, j + 1);
    }
  }

  lemma MatchIsOccurrence(s: string, t: string, k: nat)
    requires k + |t| <= |s|
    ensures MatchFrom(s, t, k, 0) <==> OccursAt(s, t, k)
  {
    MatchFromSpec(s, t, k, 0);
    if forall i :: 0 <= i < |t| ==> s[k + i] == t[i] {
      assert s[k..k + |t|] == t;
    }
    if OccursAt(s, t, k) {
      forall i | 0 <= i < |t| ensures s[k + i] == t[i] {
        assert s[k..k + |t|][i] == t[i];
      }
    }
  }

  lemma {:induction false} FindFromIsFirst(s: string, t: string, k: nat)
    ensures FindFrom(s, t, k) == -1 ==> forall i :: k <= i ==> !OccursAt(s, t, i)
    ensures FindFrom(s, t, k) != -1 ==> OccursAt(s, t, FindFrom(s, t, k))
    ensures forall i :: k <= i < FindFrom(s, t, k) ==> !OccursAt(s, t, i)
    decreases |s| - k
  {
    if k + |t| <= |s| {
      MatchIsOccurrence(s, t, k);
      if !MatchFrom(s, t, k, 0) {
        FindFromIsFirst(s, t, k + 1);
      }
    }
  }

  /** `find` returns -1 exactly when `t` occurs nowhere in `s`, and otherwise
      an occurrence with none before it. */
  lemma FindIsFirst(s: string, t: string)
    ensures Find(s, t) == -1 <==> forall i :: !OccursAt(s, t, i)
    ensures Find(s, t) != -1 ==> OccursAt(s, t, Find(s, t))
    ensures forall i :: 0 <= i < Find(s, t) ==> !OccursAt(s, t, i)
  {
    FindFromIsFirst(s, t, 0);
  }

  /** The end of the run of whitespace in `s` that starts at index `i`. */
  function SpaceRun(s: string, i: nat): (j: nat)
    requires i <= |s|
    ensures i <= j <= |s|
    decreases |s| - i
  {
    if i < |s| && IsSpace(s[i]) then SpaceRun(s, i + 1) else i
  }

  /** Python's `s.lstrip()` (LStripSpec states what it removes). */
  function LStrip(s: string): string
  {
    s[SpaceRun(s, 0)..]
  }

  lemma {:induction false} SpaceRunSpec(s: string, i: nat)
    requires i <= |s|
    ensures SpaceRun(s, i) == |s| || !IsSpace(s[SpaceRun(s, i)])
    ensures forall m :: i <= m < SpaceRun(s, i) ==> IsSpace(s[m])
    decreases |s| - i
  {
    if i < |s| && IsSpace(s[i]) {
      SpaceRunSpec(s, i + 1);
    }
  }

  /** `lstrip` drops exactly the leading whitespace: everything it drops is
      whitespace and what it keeps does not start with whitespace. */
  lemma LStripSpec(s: string)
    ensures IsSuffix(LStrip(s), s)
    ensures LStrip(s) == [] || !IsSpace(LStrip(s)[0])
    ensures forall i :: 0 <= i < |s| - |LStrip(s)| ==> IsSpace(s[i])
  {
    SpaceRunSpec(s, 0);
  }

  /** Python's `" ".join(ts)`. */
  function JoinSpace(ts: seq<string>): string
  {
    if ts == [] then ""
    else if |ts| == 1 then ts[0]
    else ts[0] + " " + JoinSpace(ts[1..])
  }

  /** Python's `s.split(" ")`: the pieces between single spaces, always at
      least one. */
  function SplitSpace(s: string): (r: seq<string>)
    ensures r != []
    decreases |s|
  {
    var i := Find(s, " ");
    if i < 0 then [s] else [s[..i]] + SplitSpace(s[i + 1..])
  }

  lemma NoSpaceNotFound(s: string)
    requires ' ' !in s
    ensures Find(s, " ") == -1
  {
    FindIsFirst(s, " ");
    forall i ensures !OccursAt(s, " ", i) {
      if 0 <= i < |s| {
        assert s[i..i + 1] == [s[i]];
      }
    }
  }

  /** Splitting at single spaces undoes joining with single spaces, as long
      as no piece contains a space itself. */
  lemma {:induction false} SplitJoin(ts: seq<string>)
    requires ts != []
    requires forall k :: 0 <= k < |ts| ==> ' ' !in ts[k]
    ensures SplitSpace(JoinSpace(ts)) == ts
  {
    if |ts| == 1 {
      NoSpaceNotFound(ts[0]);
    } else {
      var rest := JoinSpace(ts[1..]);
      var s := ts[0] + " " + rest;
      var n := |ts[0]|;
      assert s[n..n + 1] == " ";
      assert OccursAt(s, " ", n);
      forall j | 0 <= j < n ensures !OccursAt(s, " ", j) {
        assert s[j] == ts[0][j];
        assert s[j..j + 1] == [s[j]];
      }
      FindIsFirst(s, " ");
      assert Find(s, " ") == n;
      assert s[..n] == ts[0];
      assert s[n + 1..] == rest;
      SplitJoin(ts[1..]);
    }
  }

  /** One step of the push-path accumulator: a space goes in front of the new
      text only when something has been accumulated already. */
  function Append(acc: string, t: string): string
  {
    (if acc != "" then acc + " " else acc) + t
  }

  /** The push-path accumulator after appending each of `ts` in order,
      starting from the empty string. */
  function Accumulate(ts: seq<string>): string
  {
    if ts == [] then "" else Append(Accumulate(ts[..|ts| - 1]), ts[|ts| - 1])
  }

  /** `ts` without its leading empty strings. */
  function DropLeadingEmpty(ts: seq<string>): (r: seq<string>)
    ensures r == [] || r[0] != ""
  {
    if ts != [] && ts[0] == "" then DropLeadingEmpty(ts[1..]) else ts
  }

  lemma {:induction false} DropLeadingEmptySnoc(xs: seq<string>, y: string)
    ensures DropLeadingEmpty(xs + [y]) ==
      if DropLeadingEmpty(xs) == [] then DropLeadingEmpty([y]) else DropLeadingEmpty(xs) + [y]
  {
    if xs != [] && xs[0] == "" {
      assert (xs + [y])[1..] == xs[1..] + [y];
      DropLeadingEmptySnoc(xs[1..], y);
    } else if xs == [] {
      assert xs + [y] == [y];
    }
  }

  lemma {:induction false} JoinSpaceSnoc(xs: seq<string>, y: string)
    requires xs != []
    ensures JoinSpace(xs + [y]) == JoinSpace(xs) + " " + y
  {
    if |xs| > 1 {
      assert (xs + [y])[1..] == xs[1..] + [y];
      JoinSpaceSnoc(xs[1..], y);
    }
  }

  /** A join whose first piece is not empty is not empty. */
  lemma JoinSpaceNonEmpty(ts: seq<string>)
    requires ts != [] && ts[0] != ""
    ensures JoinSpace(ts) != ""
  {
    assert |JoinSpace(ts)| >= |ts[0]|;
  }

  /** The push-path accumulator is `" ".join` of the accumulated texts once
      the leading empty texts are dropped. */
  lemma {:induction false} AccumulateIsJoin(ts: seq<string>)
    ensures Accumulate(ts) == JoinSpace(DropLeadingEmpty(ts))
  {
    if ts != [] {
      var init, last := ts[..|ts| - 1], ts[|ts| - 1];
      assert ts == init + [last];
      AccumulateIsJoin(init);
      DropLeadingEmptySnoc(init, last);
      var d := DropLeadingEmpty(init);
      assert Accumulate(ts) == Append(JoinSpace(d), last);
      if d != [] {
        JoinSpaceNonEmpty(d);
        JoinSpaceSnoc(d, last);
      } else if last == "" {
        assert DropLeadingEmpty([last]) == [];
      } else {
        assert DropLeadingEmpty([last]) == [last];
      }
    }
  }

  /** In particular the accumulator is exactly the single-space join when
      the first text is not empty. */
  lemma AccumulateIsJoinWhenFirstNonEmpty(ts: seq<string>)
    requires ts != [] && ts[0] != ""
    ensures Accumulate(ts) == JoinSpace(ts)
  {
    AccumulateIsJoin(ts);
  }
}
