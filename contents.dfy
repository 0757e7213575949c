/**
 * pkg/file/contents.go: the separator-run capper DeleteOverNOccurrences and the suffix test
 * FileEndsWith. The capper is generic in the element type; the move pipeline uses it on bytes.
 *
 * A "run" is a maximal stretch of back-to-back copies of a pattern. The specification function
 * CapRun says what the capper computes: the run reached from the anchor keeps at most `keep`
 * copies, everything else is untouched. The method DeleteOverNOccurrences is the Go loop
 * structure, working in place on the caller's buffer as Go's append does.
 */
module Contents {
  import opened Wrappers
  import opened FileSystem

  /** A whole copy of p starts at position i of c. */
  predicate MatchAt<T(==)>(c: seq<T>, p: seq<T>, i: int)
  {
    0 <= i && i + |p| <= |c| && c[i..i + |p|] == p
  }

  /** m back-to-back copies of p. */
  function Repeat<T>(p: seq<T>, m: nat): seq<T>
  {
    if m == 0 then [] else p + Repeat(p, m - 1)
  }

  function Min(a: nat, b: nat): nat
  {
    if a <= b then a else b
  }

  /** Go's `for range n` runs zero times for a negative n. */
  function Clamp(n: int): nat
  {
    if n < 0 then 0 else n
  }

  /** The backward probe: tries positions i, i-1, ... (at most `left` of them, never below 0)
      and yields the first, hence highest, at which a copy of p starts. */
  function Probe<T(==)>(c: seq<T>, p: seq<T>, i: int, left: nat): (q: Option<nat>)
    ensures q.Some? ==> i - left < q.value <= i && MatchAt(c, p, q.value)
    ensures forall j :: (if q.Some? then q.value else i - left) < j <= i ==> !MatchAt(c, p, j)
    decreases left
  {
    if left == 0 || i < 0 then None
    else if MatchAt(c, p, i) then Some(i)
    else Probe(c, p, i - 1, left - 1)
  }

  /** Number of back-to-back copies of p starting at i. */
  function RunCount<T(==)>(c: seq<T>, p: seq<T>, i: nat): nat
    requires |p| > 0 && i <= |c|
    decreases |c| - i
  {
    if MatchAt(c, p, i) then 1 + RunCount(c, p, i + |p|) else 0
  }

  /** Position just past the back-to-back copies of p starting at i. */
  function RunEnd<T(==)>(c: seq<T>, p: seq<T>, i: nat): (e: nat)
    requires |p| > 0 && i <= |c|
    ensures i <= e <= |c| && !MatchAt(c, p, e)
    decreases |c| - i
  {
    if MatchAt(c, p, i) then RunEnd(c, p, i + |p|) else i
  }

  /** The stretch from i to RunEnd(i) is exactly RunCount(i) copies of p. */
  lemma {:induction false} RunIsRepeat<T>(c: seq<T>, p: seq<T>, i: nat)
    requires |p| > 0 && i <= |c|
    ensures c[i..RunEnd(c, p, i)] == Repeat(p, RunCount(c, p, i))
    decreases |c| - i
  {
    if MatchAt(c, p, i) {
      var e := RunEnd(c, p, i + |p|);
      RunIsRepeat(c, p, i + |p|);
      assert c[i..e] == c[i..i + |p|] + c[i + |p|..e];
    }
  }

  /** Start of the run that contains the copy at q: step back |p| at a time while copies match. */
  function RunStart<T(==)>(c: seq<T>, p: seq<T>, q: nat): (r: nat)
    requires |p| > 0
    ensures r <= q
    ensures r < |p| || !MatchAt(c, p, r - |p|)
    ensures MatchAt(c, p, q) ==> MatchAt(c, p, r) && RunEnd(c, p, r) == RunEnd(c, p, q)
    decreases q
  {
    if q >= |p| && MatchAt(c, p, q - |p|) then RunStart(c, p, q - |p|) else q
  }

  /** Position reached by stepping over at most k copies from i, stopping early at the run's end. */
  function KeepEnd<T(==)>(c: seq<T>, p: seq<T>, i: nat, k: nat): (b: nat)
    requires |p| > 0 && i <= |c|
    ensures i <= b <= |c|
    ensures RunEnd(c, p, b) == RunEnd(c, p, i)
    decreases k
  {
    if k == 0 || !MatchAt(c, p, i) then i else KeepEnd(c, p, i + |p|, k - 1)
  }

  /** The stretch KeepEnd steps over is min(k, n) copies of the n-copy run, and the copies
      left after it are the other n - min(k, n). */
  lemma {:induction false} KeepEndIsRepeat<T>(c: seq<T>, p: seq<T>, i: nat, k: nat)
    requires |p| > 0 && i <= |c|
    ensures var b := KeepEnd(c, p, i, k);
            && c[i..b] == Repeat(p, Min(k, RunCount(c, p, i)))
            && RunCount(c, p, b) == RunCount(c, p, i) - Min(k, RunCount(c, p, i))
    decreases k
  {
    if k != 0 && MatchAt(c, p, i) {
      var b := KeepEnd(c, p, i + |p|, k - 1);
      var n := RunCount(c, p, i + |p|);
      KeepEndIsRepeat(c, p, i + |p|, k - 1);
      assert KeepEnd(c, p, i, k) == b && RunCount(c, p, i) == n + 1;
      assert Min(k, n + 1) == Min(k - 1, n) + 1;
      assert Repeat(p, Min(k - 1, n) + 1) == p + Repeat(p, Min(k - 1, n));
      assert c[i..b] == c[i..i + |p|] + c[i + |p|..b];
    } else {
      assert KeepEnd(c, p, i, k) == i && Min(k, RunCount(c, p, i)) == 0;
    }
  }

  /** The span [lo, hi) a call deletes, when it deletes: lo is `keep` copies into the run
      reached from the anchor (or the run's end), hi is the run's end. */
  datatype Span = Span(lo: nat, hi: nat)

  function Window<T(==)>(c: seq<T>, p: seq<T>, start: int, keep: int): (w: Option<Span>)
    ensures w.Some? ==> |p| > 0 && w.value.lo <= w.value.hi <= |c|
  {
    if start >= |c| || |p| > |c| then None
    else match Probe(c, p, start, |p|)
      case None => None
      case Some(q) =>
        var r := RunStart(c, p, q);
        Some(Span(KeepEnd(c, p, r, Clamp(keep)), RunEnd(c, p, r)))
  }

  /** What DeleteOverNOccurrences(content, chars, start, occurrences) returns. */
  function CapRun<T(==)>(c: seq<T>, p: seq<T>, start: int, keep: int): (r: seq<T>)
    ensures |r| <= |c|
    ensures start >= |c| || |p| > |c| || |p| == 0 ==> r == c
  {
    match Window(c, p, start, keep)
    case None => assert c == c[..|c|] + c[|c|..]; c
    case Some(w) => c[..w.lo] + c[w.hi..]
  }

  /** With no copy of p ending the probe's reach back from the anchor, nothing is deleted. */
  lemma CapRunWithoutMatch<T>(c: seq<T>, p: seq<T>, start: int, keep: int)
    requires forall j :: start - |p| < j <= start ==> !MatchAt(c, p, j)
    ensures CapRun(c, p, start, keep) == c
  {
    if start < |c| && |p| <= |c| {
      var q := Probe(c, p, start, |p|);
      assert q.None?;
    }
  }

  /** The result is the content with one span cut out: what is kept keeps its order. */
  lemma CapRunCutsOneSpan<T>(c: seq<T>, p: seq<T>, start: int, keep: int)
    ensures exists lo: nat, hi: nat :: lo <= hi <= |c| && CapRun(c, p, start, keep) == c[..lo] + c[hi..]
  {
    match Window(c, p, start, keep)
    case None =>
      assert CapRun(c, p, start, keep) == c[..|c|] + c[|c|..];
    case Some(w) =>
      assert CapRun(c, p, start, keep) == c[..w.lo] + c[w.hi..];
  }

  /** The run CapRun works on: it starts at or before the probe hit q, which lies within |p|
      positions of the anchor, and it is maximal, with no copy just before it or just after it. */
  lemma CapRunFindsMaximalRun<T>(c: seq<T>, p: seq<T>, start: int, keep: int)
    requires Window(c, p, start, keep).Some?
    ensures var q := Probe(c, p, start, |p|).value;
            var r := RunStart(c, p, q);
            var e := RunEnd(c, p, r);
            && start - |p| < q <= start && MatchAt(c, p, q)
            && r <= q < e && RunCount(c, p, r) > 0
            && (r < |p| || !MatchAt(c, p, r - |p|)) && !MatchAt(c, p, e)
  {
    var q := Probe(c, p, start, |p|).value;
    var r := RunStart(c, p, q);
    assert RunEnd(c, p, r) == RunEnd(c, p, q);
    CopyStartsRun(c, p, q);
    CopyStartsRun(c, p, r);
  }

  /** A copy at i is the first of a run of at least one copy that ends past i. */
  lemma CopyStartsRun<T>(c: seq<T>, p: seq<T>, i: nat)
    requires |p| > 0 && i <= |c| && MatchAt(c, p, i)
    ensures i < RunEnd(c, p, i) && RunCount(c, p, i) > 0
  {
  }

  /** The headline property: CapRun replaces the run of n copies it found by min(keep, n)
      copies, and nothing before or after the run changes. */
  lemma CapRunReplacesRun<T>(c: seq<T>, p: seq<T>, start: int, keep: int)
    requires Window(c, p, start, keep).Some?
    ensures var r := RunStart(c, p, Probe(c, p, start, |p|).value);
            var n := RunCount(c, p, r);
            && c == c[..r] + Repeat(p, n) + c[RunEnd(c, p, r)..]
            && CapRun(c, p, start, keep) == c[..r] + Repeat(p, Min(Clamp(keep), n)) + c[RunEnd(c, p, r)..]
  {
    var r := RunStart(c, p, Probe(c, p, start, |p|).value);
    var e := RunEnd(c, p, r);
    var lo := KeepEnd(c, p, r, Clamp(keep));
    assert CapRun(c, p, start, keep) == c[..lo] + c[e..];
    RunIsRepeat(c, p, r);
    KeepEndIsRepeat(c, p, r, Clamp(keep));
    CutInsideRun(c, r, lo, e);
  }

  /** Cutting c[lo..e] out of a stretch c[r..e] leaves c[r..lo] in its place. */
  lemma CutInsideRun<T>(c: seq<T>, r: nat, lo: nat, e: nat)
    requires r <= lo <= e <= |c|
    ensures c == c[..r] + c[r..e] + c[e..]
    ensures c[..lo] + c[e..] == c[..r] + c[r..lo] + c[e..]
  {
    assert c[..lo] == c[..r] + c[r..lo];
  }

  /** Cutting a sequence at two points and gluing the three pieces back gives it again. */
  lemma SplitAt<T>(c: seq<T>, i: nat, j: nat)
    requires i <= j <= |c|
    ensures c == c[..i] + c[i..j] + c[j..]
  {
  }

  /** A run holding no more copies than `keep` is never padded and never shortened. */
  lemma CapRunNeverPads<T>(c: seq<T>, p: seq<T>, start: int, keep: int)
    requires Window(c, p, start, keep).Some?
    requires RunCount(c, p, RunStart(c, p, Probe(c, p, start, |p|).value)) <= keep
    ensures CapRun(c, p, start, keep) == c
  {
    var r := RunStart(c, p, Probe(c, p, start, |p|).value);
    var lo := KeepEnd(c, p, r, Clamp(keep));
    KeepEndIsRepeat(c, p, r, Clamp(keep));
    assert RunCount(c, p, lo) == 0;
    assert lo == RunEnd(c, p, lo);
    assert c == c[..lo] + c[lo..];
  }

  /** Everything CapRun deletes is whole copies of the pattern, up to the end of the run. */
  lemma CapRunDeletesWholeCopies<T>(c: seq<T>, p: seq<T>, start: int, keep: int)
    requires Window(c, p, start, keep).Some?
    ensures var w := Window(c, p, start, keep).value;
            && CapRun(c, p, start, keep) == c[..w.lo] + c[w.hi..]
            && c[w.lo..w.hi] == Repeat(p, RunCount(c, p, w.lo))
            && !MatchAt(c, p, w.hi)
  {
    RunIsRepeat(c, p, Window(c, p, start, keep).value.lo);
  }

  /** One copy at i: stepping over it changes neither where k steps end nor where the run ends. */
  lemma StepOverCopy<T>(c: seq<T>, p: seq<T>, i: nat, k: nat)
    requires |p| > 0 && i <= |c| && k > 0
    requires i + |p| <= |c| && c[i..i + |p|] == p
    ensures KeepEnd(c, p, i, k) == KeepEnd(c, p, i + |p|, k - 1)
    ensures RunEnd(c, p, i) == RunEnd(c, p, i + |p|)
  {
  }

  /** A copy at i belongs to the run that goes on from i + |p|. */
  lemma CopyExtendsRun<T>(c: seq<T>, p: seq<T>, i: nat)
    requires |p| > 0 && i + |p| <= |c| && c[i..i + |p|] == p
    ensures RunEnd(c, p, i) == RunEnd(c, p, i + |p|)
  {
    assert MatchAt(c, p, i);
  }

  /** The loop's invariant carried over one copy. */
  lemma SkipStep<T>(c: seq<T>, p: seq<T>, first: nat, k: nat, i: nat, left: nat)
    requires |p| > 0 && first <= |c| && left > 0
    requires i + |p| <= |c| && c[i..i + |p|] == p
    requires KeepEnd(c, p, first, k) == KeepEnd(c, p, i, left)
    requires RunEnd(c, p, first) == RunEnd(c, p, i)
    ensures KeepEnd(c, p, first, k) == KeepEnd(c, p, i + |p|, left - 1)
    ensures RunEnd(c, p, first) == RunEnd(c, p, i + |p|)
  {
    StepOverCopy(c, p, i, left);
  }

  /** No copy at i, or one that ends the sequence: k steps from i end where the run does. */
  lemma NoRoomLeft<T>(c: seq<T>, p: seq<T>, i: nat, k: nat)
    requires |p| > 0 && i <= |c| && k > 0
    requires i + |p| >= |c| || c[i..i + |p|] != p
    ensures KeepEnd(c, p, i, k) == RunEnd(c, p, i)
  {
    if MatchAt(c, p, i) {
      assert KeepEnd(c, p, i + |p|, k - 1) == |c|;
    }
  }

  /** The last element of m > 0 copies of p is the last element of p. */
  lemma {:induction false} RepeatLast<T>(p: seq<T>, m: nat)
    requires p != [] && m > 0
    ensures |Repeat(p, m)| >= |p| && Repeat(p, m)[|Repeat(p, m)| - 1] == p[|p| - 1]
  {
    if m > 1 {
      RepeatLast(p, m - 1);
    }
  }

  /** An element not in p is in no number of copies of p. */
  lemma {:induction false} RepeatAvoids<T>(p: seq<T>, m: nat, x: T)
    requires x !in p
    ensures x !in Repeat(p, m)
  {
    if m > 0 {
      RepeatAvoids(p, m - 1, x);
    }
  }

  /** Two stretches from s0 that are whole copies of p end with the same element. */
  lemma SameLast<T>(c: seq<T>, p: seq<T>, s0: nat, lo: nat, e: nat, m: nat, n: nat)
    requires p != [] && m > 0 && n > 0 && s0 < lo <= e <= |c|
    requires c[s0..lo] == Repeat(p, m) && c[s0..e] == Repeat(p, n)
    ensures c[lo - 1] == c[e - 1]
  {
    RepeatLast(p, m);
    RepeatLast(p, n);
    assert c[s0..lo][lo - s0 - 1] == c[lo - 1];
    assert c[s0..e][e - s0 - 1] == c[e - 1];
  }

  /** With keep >= 1 the kept part of the run holds at least one copy. */
  lemma KeepsACopy<T>(c: seq<T>, p: seq<T>, start: int, keep: int)
    requires keep >= 1 && Window(c, p, start, keep).Some?
    ensures var r := RunStart(c, p, Probe(c, p, start, |p|).value);
            && KeepEnd(c, p, r, Clamp(keep)) > r
            && RunCount(c, p, r) > 0
            && CapRun(c, p, start, keep) == c[..KeepEnd(c, p, r, Clamp(keep))] + c[RunEnd(c, p, r)..]
  {
    CapRunFindsMaximalRun(c, p, start, keep);
  }

  /** With keep >= 1, CapRun keeps c[..lo] and c[e..] with lo > 0; when the run reaches the
      end, the last kept copy ends with the content's last element. */
  lemma KeptStretch<T>(c: seq<T>, p: seq<T>, start: int, keep: int) returns (lo: nat, e: nat)
    requires keep >= 1 && Window(c, p, start, keep).Some?
    ensures 0 < lo <= e <= |c| && CapRun(c, p, start, keep) == c[..lo] + c[e..]
    ensures e == |c| ==> c[lo - 1] == c[e - 1]
  {
    KeepsACopy(c, p, start, keep);
    var r := RunStart(c, p, Probe(c, p, start, |p|).value);
    lo, e := KeepEnd(c, p, r, Clamp(keep)), RunEnd(c, p, r);
    if e == |c| {
      KeepEndIsRepeat(c, p, r, Clamp(keep));
      RunIsRepeat(c, p, r);
      SameLast(c, p, r, lo, e, Min(Clamp(keep), RunCount(c, p, r)), RunCount(c, p, r));
    }
  }

  /** Cutting out c[lo..e] keeps the last element when something is kept before the cut and
      the cut either stops short of the end or ends with the element it leaves last. */
  lemma CutKeepsLast<T>(c: seq<T>, lo: nat, e: nat)
    requires 0 < lo <= e <= |c|
    requires e == |c| ==> c[lo - 1] == c[e - 1]
    ensures var t := c[..lo] + c[e..]; t != [] && t[|t| - 1] == c[|c| - 1]
  {
    if e == |c| {
      assert c[..lo] + c[e..] == c[..lo];
    }
  }

  /** Keeping at least one copy, CapRun never changes the last element. */
  lemma CapRunKeepsLast<T>(c: seq<T>, p: seq<T>, start: int, keep: int)
    requires c != [] && keep >= 1
    ensures var r := CapRun(c, p, start, keep); r != [] && r[|r| - 1] == c[|c| - 1]
  {
    if Window(c, p, start, keep).Some? {
      var lo, e := KeptStretch(c, p, start, keep);
      CutKeepsLast(c, lo, e);
    }
  }

  /** CapRun deletes copies of p only: an element not in p keeps its count. */
  lemma CapRunKeepsOthers<T>(c: seq<T>, p: seq<T>, start: int, keep: int, x: T)
    requires x !in p
    ensures multiset(CapRun(c, p, start, keep))[x] == multiset(c)[x]
  {
    if Window(c, p, start, keep).Some? {
      var w := Window(c, p, start, keep).value;
      CapRunDeletesWholeCopies(c, p, start, keep);
      RepeatAvoids(p, RunCount(c, p, w.lo), x);
      SplitAt(c, w.lo, w.hi);
      var a, b, d := c[..w.lo], c[w.lo..w.hi], c[w.hi..];
      assert multiset(c) == multiset(a) + multiset(b) + multiset(d);
      assert multiset(b)[x] == 0;
    }
  }

  /** A one-element pattern matches at i exactly when c[i] is its element. */
  lemma MatchOne<T>(c: seq<T>, p: seq<T>, i: nat)
    requires |p| == 1 && i < |c|
    ensures MatchAt(c, p, i) <==> c[i] == p[0]
  {
    if c[i] == p[0] {
      assert c[i..i + 1] == p;
    }
  }

  /** Where the trailing pass cuts a sequence ending in a run of x: just after the run's
      first x. */
  lemma TrailingRunStart<T>(c: seq<T>, p: seq<T>) returns (r: nat)
    requires |p| == 1 && c != [] && c[|c| - 1] == p[0]
    ensures r < |c| && c[r] == p[0] && (r == 0 || c[r - 1] != p[0])
    ensures CapRun(c, p, |c| - 1, 1) == c[..r + 1]
  {
    MatchOne(c, p, |c| - 1);
    assert Probe(c, p, |c| - 1, 1) == Some(|c| - 1);
    KeepsACopy(c, p, |c| - 1, 1);
    r := RunStart(c, p, |c| - 1);
    assert RunEnd(c, p, r) == |c|;
    assert KeepEnd(c, p, r, 1) == r + 1;
    MatchOne(c, p, r);
    if r >= 1 {
      MatchOne(c, p, r - 1);
    }
  }

  /** Anchored at the last element with one copy kept, a one-element pattern [x]: a trailing
      run of x shrinks to a single x, and a sequence not ending in x is left alone. */
  lemma TrimsTrailingRun<T>(c: seq<T>, p: seq<T>)
    requires |p| == 1
    ensures var t := CapRun(c, p, |c| - 1, 1);
            && (c == [] || c[|c| - 1] != p[0] ==> t == c)
            && (c != [] ==> t != [] && t[|t| - 1] == c[|c| - 1])
            && (|t| >= 2 && t[|t| - 1] == p[0] ==> t[|t| - 2] != p[0])
  {
    if c != [] && c[|c| - 1] == p[0] {
      var r := TrailingRunStart(c, p);
      var t := c[..r + 1];
      assert t[|t| - 1] == c[r];
      assert |t| >= 2 ==> t[|t| - 2] == c[r - 1];
    } else if c != [] {
      MatchOne(c, p, |c| - 1);
      assert forall j :: |c| - 2 < j <= |c| - 1 ==> !MatchAt(c, p, j);
    }
  }

  /**
   * DeleteOverNOccurrences(content, chars, start, occurrences), where content is the slice
   * buf[..len]. As in Go, the result is written over the caller's buffer by append: the
   * returned length n delimits the result and the bytes past n are those the buffer held.
   * The four loops of the Go function are the four helper methods below, in order.
   */
  method DeleteOverNOccurrences<T(==)>(buf: array<T>, len: nat, chars: seq<T>, start: int, occurrences: int)
    returns (n: nat)
    requires len <= buf.Length
    modifies buf
    ensures n <= len
    ensures buf[..n] == CapRun(old(buf[..len]), chars, start, occurrences)
    ensures buf[n..] == old(buf[n..])
  {
    ghost var content := buf[..len];
    var lo, hi := FindWindow(buf[..len], chars, start, occurrences);
    n := Splice(buf, len, lo, hi);
    assert buf[..n] == content[..lo] + content[hi..];
  }

  /** The body of the Go function up to its final append: the span [lo, hi) to delete, empty
      wherever Go returns the content unchanged. */
  method FindWindow<T(==)>(content: seq<T>, chars: seq<T>, start: int, occurrences: int)
    returns (lo: nat, hi: nat)
    ensures lo <= hi <= |content|
    ensures CapRun(content, chars, start, occurrences) == content[..lo] + content[hi..]
  {
    if start >= |content| || |chars| > |content| {
      return |content|, |content|;
    }
    var hit := ProbeBack(content, chars, start);
    if hit.None? {
      assert content == content[..|content|] + content[|content|..];
      return |content|, |content|;
    }
    var first := BacktrackRun(content, chars, hit.value);
    var keepEnd, complete := SkipCopies(content, chars, first, Clamp(occurrences));
    if !complete {
      ghost var e := RunEnd(content, chars, first);
      CapRunFromLoops(content, chars, start, occurrences, hit.value, e, e);
      assert content == content[..|content|] + content[|content|..];
      return |content|, |content|;
    }
    var dt := ExtendRun(content, chars, keepEnd);
    CapRunFromLoops(content, chars, start, occurrences, hit.value, keepEnd, dt);
    return keepEnd, dt;
  }

  /** What the four loops find, put together: the probe hit, the run's start, where keeping
      stops and where the run ends give the result of CapRun. */
  lemma CapRunFromLoops<T>(c: seq<T>, p: seq<T>, start: int, keep: int, q: nat, lo: nat, hi: nat)
    requires start < |c| && |p| <= |c|
    requires Probe(c, p, start, |p|) == Some(q)
    requires lo == KeepEnd(c, p, RunStart(c, p, q), Clamp(keep))
    requires hi == RunEnd(c, p, lo)
    ensures lo <= hi <= |c| && CapRun(c, p, start, keep) == c[..lo] + c[hi..]
    ensures lo == hi ==> CapRun(c, p, start, keep) == c
  {
    assert Window(c, p, start, keep) == Some(Span(lo, hi));
    assert c == c[..lo] + c[lo..];
  }

  /** First loop: probe backwards from start, |chars| positions at most, for a copy of chars. */
  method ProbeBack<T(==)>(content: seq<T>, chars: seq<T>, start: int) returns (hit: Option<nat>)
    requires start < |content|
    ensures hit == Probe(content, chars, start, |chars|)
  {
    var length := |chars|;
    var pos := start;
    for i := 0 to length
      invariant pos == start - i
      invariant Probe(content, chars, start, length) == Probe(content, chars, pos, length - i)
    {
      if pos < 0 {
        return None;
      }
      if pos + length > |content| {
        pos := pos - 1;
        continue;
      }
      if content[pos..pos + length] == chars {
        return Some(pos);
      }
      pos := pos - 1;
    }
    return None;
  }

  /** Second loop: step back one copy at a time while copies precede the hit. */
  method BacktrackRun<T(==)>(content: seq<T>, chars: seq<T>, hit: nat) returns (first: nat)
    requires MatchAt(content, chars, hit) && |chars| > 0
    ensures first == RunStart(content, chars, hit)
  {
    var length := |chars|;
    var pos: int := hit;
    ghost var last := hit;
    while pos >= 0 && content[pos..pos + length] == chars
      invariant MatchAt(content, chars, last) && RunStart(content, chars, last) == RunStart(content, chars, hit)
      invariant pos == last || pos == last - length
      decreases pos + length
    {
      if pos != last {
        RunStartSteps(content, chars, last);
      }
      last := pos;
      pos := pos - length;
    }
    assert pos == last - length;
    RunStartStops(content, chars, last);
    first := pos + length;
  }

  /** A copy just before q: the run through q starts where the run through that copy does. */
  lemma RunStartSteps<T>(c: seq<T>, p: seq<T>, q: nat)
    requires |p| > 0 && q >= |p| && MatchAt(c, p, q - |p|)
    ensures RunStart(c, p, q) == RunStart(c, p, q - |p|)
  {
  }

  /** No copy just before q: the run through q starts at q. */
  lemma RunStartStops<T>(c: seq<T>, p: seq<T>, q: nat)
    requires |p| > 0 && (q < |p| || !MatchAt(c, p, q - |p|))
    ensures RunStart(c, p, q) == q
  {
  }

  /**
   * Third loop: step over k copies starting at the start of the run. It gives up
   * (complete == false) where Go returns the content unchanged: when a copy is missing, or when
   * the next copy would reach the very end of the content (Go's `start+length >= len(content)`).
   * In both cases keeping k copies deletes nothing, which is what the ensures says.
   */
  method SkipCopies<T(==)>(content: seq<T>, chars: seq<T>, first: nat, k: nat)
    returns (keepEnd: nat, complete: bool)
    requires |chars| > 0 && first <= |content|
    ensures complete ==> keepEnd == KeepEnd(content, chars, first, k)
    ensures !complete ==> KeepEnd(content, chars, first, k) == RunEnd(content, chars, first)
  {
    var length := |chars|;
    var pos := first;
    ghost var left := k;
    for j := 0 to k
      invariant first <= pos <= |content| && left == k - j
      invariant KeepEnd(content, chars, first, k) == KeepEnd(content, chars, pos, left)
      invariant RunEnd(content, chars, first) == RunEnd(content, chars, pos)
    {
      if pos + length >= |content| {
        NoRoomLeft(content, chars, pos, left);
        return pos, false;
      }
      if content[pos..pos + length] != chars {
        NoRoomLeft(content, chars, pos, left);
        return pos, false;
      }
      SkipStep(content, chars, first, k, pos, left);
      pos, left := pos + length, left - 1;
    }
    return pos, true;
  }

  /** Fourth loop: extend the deletion window over every further copy. */
  method ExtendRun<T(==)>(content: seq<T>, chars: seq<T>, from: nat) returns (dt: nat)
    requires |chars| > 0 && from <= |content|
    ensures dt == RunEnd(content, chars, from)
  {
    var length := |chars|;
    dt := from;
    while dt + length <= |content| && content[dt..dt + length] == chars
      invariant from <= dt <= |content|
      invariant RunEnd(content, chars, from) == RunEnd(content, chars, dt)
      decreases |content| - dt
    {
      CopyExtendsRun(content, chars, dt);
      dt := dt + length;
    }
  }

  /** Go's append(s[:lo], s[hi:len]...) on a slice backed by buf: the tail moves down in place. */
  method Splice<T>(buf: array<T>, len: nat, lo: nat, hi: nat) returns (n: nat)
    requires lo <= hi <= len <= buf.Length
    modifies buf
    ensures n == len - (hi - lo)
    ensures buf[..n] == old(buf[..len])[..lo] + old(buf[..len])[hi..]
    ensures buf[n..] == old(buf[n..])
  {
    ghost var s := buf[..];
    var i := 0;
    while i < len - hi
      invariant 0 <= i <= len - hi
      invariant forall j :: 0 <= j < lo ==> buf[j] == s[j]
      invariant forall j :: lo <= j < lo + i ==> buf[j] == s[j + (hi - lo)]
      invariant forall j :: lo + i <= j < buf.Length ==> buf[j] == s[j]
    {
      buf[lo + i] := buf[hi + i];
      i := i + 1;
    }
    n := lo + (len - hi);
    ShiftedDown(buf[..], s, lo, hi, len);
  }

  /** b is s with s[hi..len] moved down to lo: then b's first n elements are the spliced
      sequence and the rest is as in s. */
  lemma ShiftedDown<T>(b: seq<T>, s: seq<T>, lo: nat, hi: nat, len: nat)
    requires lo <= hi <= len <= |s| == |b|
    requires forall j :: 0 <= j < lo ==> b[j] == s[j]
    requires forall j :: lo <= j < lo + (len - hi) ==> b[j] == s[j + (hi - lo)]
    requires forall j :: lo + (len - hi) <= j < |b| ==> b[j] == s[j]
    ensures b[..lo + (len - hi)] == s[..len][..lo] + s[..len][hi..]
    ensures b[lo + (len - hi)..] == s[lo + (len - hi)..]
  {
    var n := lo + (len - hi);
    var c := s[..len];
    forall j | 0 <= j < n ensures b[..n][j] == (c[..lo] + c[hi..])[j] {
      if j >= lo { assert b[j] == s[j + (hi - lo)]; }
    }
  }

  /** FileEndsWith on the file's bytes: the last |endsWith| bytes are endsWith. */
  function FileEndsWith(file: seq<byte>, endsWith: seq<byte>): (r: bool)
    ensures |file| < |endsWith| ==> !r
  {
    if |file| < |endsWith| then false
    else file[|file| - |endsWith|..] == endsWith
  }

  /** The suffix test holds exactly when the file is some bytes followed by endsWith. */
  lemma FileEndsWithSuffix(file: seq<byte>, endsWith: seq<byte>)
    ensures FileEndsWith(file, endsWith) <==> exists front :: file == front + endsWith
  {
    if |file| >= |endsWith| {
      var front := file[..|file| - |endsWith|];
      assert file == front + file[|file| - |endsWith|..];
    }
  }

  /** One differing element rules a copy out. */
  lemma NoCopyAt<T>(c: seq<T>, p: seq<T>, i: nat, j: nat)
    requires j < |p| && i + j < |c| && c[i + j] != p[j]
    ensures !MatchAt(c, p, i)
  {
    assert i + |p| > |c| || c[i..i + |p|][j] != p[j];
  }

  /** Matching elements one by one make a copy. */
  lemma CopyAt<T>(c: seq<T>, p: seq<T>, i: nat)
    requires i + |p| <= |c| && forall j :: 0 <= j < |p| ==> c[i + j] == p[j]
    ensures MatchAt(c, p, i)
  {
    assert forall j :: 0 <= j < |p| ==> c[i..i + |p|][j] == p[j];
  }

  /** The worked cases of the capper, as its unit tests state them. */
  lemma CapRunKeepsTwo()
    ensures CapRun("aaaa", "a", 0, 2) == "aa"
  {
    var c, p := "aaaa", "a";
    assert MatchAt(c, p, 0) && MatchAt(c, p, 1) && MatchAt(c, p, 2) && MatchAt(c, p, 3);
    assert KeepEnd(c, p, 0, 2) == 2;
    assert RunEnd(c, p, 2) == 4;
    CapRunFromLoops(c, p, 0, 2, 0, 2, 4);
  }

  lemma CapRunKeepsOneInside()
    ensures CapRun("bcaxyzxyzxyzdd", "xyz", 5, 1) == "bcaxyzdd"
  {
    var c := "bcaxyzxyzxyzdd";
    KeepsOneInsideSpan(c);
    assert c[..6] + c[12..] == "bcaxyzdd";
  }

  /** The span the capper cuts in the example above: the second and third copies. */
  lemma KeepsOneInsideSpan(c: seq<char>)
    requires c == "bcaxyzxyzxyzdd"
    ensures CapRun(c, "xyz", 5, 1) == c[..6] + c[12..]
  {
    var p := "xyz";
    CopyAt(c, p, 3);
    CopyAt(c, p, 6);
    CopyAt(c, p, 9);
    NoCopyAt(c, p, 5, 0);
    NoCopyAt(c, p, 4, 0);
    NoCopyAt(c, p, 0, 0);
    NoCopyAt(c, p, 12, 0);
    assert Probe(c, p, 5, 3) == Some(3);
    RunStartStops(c, p, 3);
    StepOverCopy(c, p, 3, 1);
    CopyExtendsRun(c, p, 6);
    CopyExtendsRun(c, p, 9);
    CapRunFromLoops(c, p, 5, 1, 3, 6, 12);
  }

  lemma CapRunDeletesWholeRun()
    ensures CapRun("ababab", "ab", 0, 0) == ""
  {
    var c, p := "ababab", "ab";
    assert MatchAt(c, p, 0) && MatchAt(c, p, 2) && MatchAt(c, p, 4);
    assert RunEnd(c, p, 0) == 6;
    CapRunFromLoops(c, p, 0, 0, 0, 0, 6);
  }

  lemma CapRunOverlappingPattern()
    ensures CapRun("aaaa", "aaa", 3, 0) == "a"
  {
    var c, p := "aaaa", "aaa";
    assert MatchAt(c, p, 1);
    assert Probe(c, p, 3, 3) == Some(1);
    assert RunStart(c, p, 1) == 1;
    assert RunEnd(c, p, 1) == 4;
    CapRunFromLoops(c, p, 3, 0, 1, 1, 4);
  }

  lemma CapRunReachesBack()
    ensures CapRun("ababababab", "ab", 9, 1) == "ab"
  {
    var c, p := "ababababab", "ab";
    assert !MatchAt(c, p, 9) && MatchAt(c, p, 8) && MatchAt(c, p, 6) && MatchAt(c, p, 4);
    assert MatchAt(c, p, 2) && MatchAt(c, p, 0);
    assert Probe(c, p, 9, 2) == Some(8);
    assert RunStart(c, p, 8) == 0;
    assert KeepEnd(c, p, 0, 1) == 2;
    assert RunEnd(c, p, 2) == 10;
    CapRunFromLoops(c, p, 9, 1, 8, 2, 10);
  }

  lemma CapRunAnchorAtRunEnd()
    ensures CapRun("abcxyzxyz", "xyz", 5, 0) == "abc"
  {
    var c, p := "abcxyzxyz", "xyz";
    NoCopyAt(c, p, 5, 0);
    NoCopyAt(c, p, 4, 0);
    NoCopyAt(c, p, 0, 0);
    assert c[3..6] == p && c[6..9] == p;
    assert Probe(c, p, 5, 3) == Some(3);
    assert RunStart(c, p, 3) == 3;
    assert RunEnd(c, p, 3) == 9;
    CapRunFromLoops(c, p, 5, 0, 3, 3, 9);
  }

  /** Capping the same anchor twice can delete more the second time: the first call pulls
      the copies behind the anchor forward, so a different run sits under it. */
  lemma CapRunNotIdempotent()
    ensures CapRun("aaaXaa", "a", 2, 1) == "aXaa"
    ensures CapRun("aXaa", "a", 2, 1) == "aXa"
  {
    var c, p := "aaaXaa", "a";
    assert MatchAt(c, p, 2) && MatchAt(c, p, 1) && MatchAt(c, p, 0);
    NoCopyAt(c, p, 3, 0);
    assert RunStart(c, p, 2) == 0;
    assert KeepEnd(c, p, 0, 1) == 1;
    assert RunEnd(c, p, 1) == 3;
    CapRunFromLoops(c, p, 2, 1, 2, 1, 3);
    var d := "aXaa";
    assert MatchAt(d, p, 2) && MatchAt(d, p, 3);
    NoCopyAt(d, p, 1, 0);
    assert RunStart(d, p, 2) == 2;
    assert KeepEnd(d, p, 2, 1) == 3;
    assert RunEnd(d, p, 3) == 4;
    CapRunFromLoops(d, p, 2, 1, 2, 3, 4);
  }

  /** The suffix test's unit tests. */
  lemma FileEndsWithExamples()
    ensures FileEndsWith(Bytes("hello world!\n"), Bytes("\n"))
    ensures !FileEndsWith(Bytes("hello world!\n"), Bytes("!"))
    ensures FileEndsWith(Bytes("hello world!\n"), Bytes("hello world!\n"))
    ensures !FileEndsWith(Bytes("hello world!\n"), Bytes("hello world!"))
    ensures !FileEndsWith(Bytes(""), Bytes("\n"))
  {
    var h := Bytes("hello world!\n");
    var w := Bytes("hello world!");
    assert |h| == 13 && |w| == 12;
    assert h[12] == 10 && h[11] == 33 && w[11] == 33;
    assert h[12..] == Bytes("\n") && h[12..] != Bytes("!");
    assert h[1..] != w;
  }
}
