/** `re.split(r'[.!?]+', s)`: the fragments between maximal runs of sentence
    terminators. */
module Sentences {

  predicate IsTerminator(c: char) { c == '.' || c == '!' || c == '?' }

  predicate NoTerminator(s: string) {
    forall k | 0 <= k < |s| :: !IsTerminator(s[k])
  }

  /** Index of the first terminator, or |s| when there is none. */
  function FirstTerminator(s: string): (k: nat)
    ensures k <= |s|
    ensures NoTerminator(s[..k])
    ensures k < |s| ==> IsTerminator(s[k])
  {
    if |s| == 0 || IsTerminator(s[0]) then 0
    else
      var k := 1 + FirstTerminator(s[1..]);
      assert s[..k] == [s[0]] + s[1..][..k - 1];
      k
  }

  /** The text after a run of terminators. */
  function DropTerminators(s: string): (r: string)
    ensures |r| <= |s| && r == s[|s| - |r|..]
    ensures forall k | 0 <= k < |s| - |r| :: IsTerminator(s[k])
    ensures r == [] || !IsTerminator(r[0])
  {
    if |s| > 0 && IsTerminator(s[0]) then DropTerminators(s[1..]) else s
  }

  /** The fragments of s; a leading or trailing run gives an empty fragment. */
  function Split(s: string): (r: seq<string>)
    ensures |r| >= 1
    ensures forall i | 0 <= i < |r| :: NoTerminator(r[i])
    ensures r[0] == s[..FirstTerminator(s)]
    decreases |s|
  {
    var k := FirstTerminator(s);
    if k == |s| then
      assert s[..k] == s;
      [s]
    else
      var rest := DropTerminators(s[k..]);
      assert |rest| < |s|;
      var tail := Split(rest);
      [s[..k]] + tail
  }

  /** A maximal run between fragments: at least one terminator, only terminators. */
  predicate IsRun(r: string) {
    |r| > 0 && forall k | 0 <= k < |r| :: IsTerminator(r[k])
  }

  /** The fragments interleaved with the runs that separated them. */
  function Glue(frags: seq<string>, runs: seq<string>): string
    requires |frags| == |runs| + 1
    decreases |runs|
  {
    if runs == [] then frags[0] else frags[0] + runs[0] + Glue(frags[1..], runs[1..])
  }

  /** The first run of terminators in s ends at j: s[k..j] is that run and
      the split goes on with s[j..]. */
  lemma FirstRun(s: string) returns (j: nat)
    requires FirstTerminator(s) < |s|
    ensures FirstTerminator(s) < j <= |s|
    ensures IsRun(s[FirstTerminator(s)..j])
    ensures DropTerminators(s[FirstTerminator(s)..]) == s[j..]
  {
    var k := FirstTerminator(s);
    var u := s[k..];
    var rest := DropTerminators(u);
    j := |s| - |rest|;
    assert u[|u| - |rest|..] == s[j..];
    assert forall i | 0 <= i < j - k :: s[k..j][i] == u[i];
  }

  /** The split of a text with a terminator: the text before it, then the
      split of what follows the run. */
  lemma SplitAtRun(s: string)
    requires FirstTerminator(s) < |s|
    ensures Split(s) == [s[..FirstTerminator(s)]] + Split(DropTerminators(s[FirstTerminator(s)..]))
  {
  }

  /** Three neighbouring slices make up the whole text. */
  lemma ThreeSlices(s: string, k: nat, j: nat)
    requires k <= j <= |s|
    ensures s[..k] + s[k..j] + s[j..] == s
  {
    assert s[..k] + s[k..j] == s[..j];
  }

  /** One more fragment and run in front of the glued text. */
  lemma GlueCons(f: string, r: string, frags: seq<string>, runs: seq<string>)
    requires |frags| == |runs| + 1
    ensures Glue([f] + frags, [r] + runs) == f + r + Glue(frags, runs)
  {
    assert ([f] + frags)[1..] == frags && ([r] + runs)[1..] == runs;
  }

  /** The split loses nothing but the runs: some runs of terminators, one
      between each pair of neighbouring fragments, glue the fragments back into
      s. With SplitInnerNonEmpty, each run is a whole run of s; as fragments
      hold no terminator, this fixes every fragment. */
  lemma {:induction false} SplitRoundTrip(s: string) returns (runs: seq<string>)
    ensures |runs| + 1 == |Split(s)|
    ensures forall i | 0 <= i < |runs| :: IsRun(runs[i])
    ensures Glue(Split(s), runs) == s
    decreases |s|
  {
    var k := FirstTerminator(s);
    if k == |s| {
      assert s[..k] == s;
      runs := [];
    } else {
      var j := FirstRun(s);
      var rest := s[j..];
      var tailRuns := SplitRoundTrip(rest);
      var head, run := s[..k], s[k..j];
      runs := [run] + tailRuns;
      SplitAtRun(s);
      forall i | 0 <= i < |runs| ensures IsRun(runs[i]) {
        if i > 0 {
          assert runs[i] == tailRuns[i - 1];
        }
      }
      GlueCons(head, run, Split(rest), tailRuns);
      ThreeSlices(s, k, j);
      assert Glue(Split(s), runs) == head + run + rest;
    }
  }

  /** A text that does not start with a terminator, split into more than one
      fragment, has a non-empty first fragment. */
  lemma FirstFragmentNonEmpty(u: string)
    requires u == [] || !IsTerminator(u[0])
    ensures |Split(u)| > 1 ==> Split(u)[0] != []
  {
    if u == [] {
      assert FirstTerminator(u) == |u|;
    }
  }

  /** Putting a fragment in front keeps the inner fragments non-empty when the
      old first one was. */
  lemma InnerAfterCons(head: string, frags: seq<string>)
    requires forall i | 0 < i < |frags| - 1 :: frags[i] != []
    requires |frags| > 1 ==> frags[0] != []
    ensures forall i | 0 < i < |[head] + frags| - 1 :: ([head] + frags)[i] != []
  {
    forall i | 0 < i < |[head] + frags| - 1 ensures ([head] + frags)[i] != [] {
      assert ([head] + frags)[i] == frags[i - 1];
    }
  }

  /** Every fragment but the first and the last is non-empty: a run of
      terminators is split on as a whole. */
  lemma {:induction false} SplitInnerNonEmpty(s: string)
    ensures forall i | 0 < i < |Split(s)| - 1 :: Split(s)[i] != []
    decreases |s|
  {
    var k := FirstTerminator(s);
    if k < |s| {
      var j := FirstRun(s);
      var rest := s[j..];
      SplitAtRun(s);
      SplitInnerNonEmpty(rest);
      FirstFragmentNonEmpty(rest);
      InnerAfterCons(s[..k], Split(rest));
    }
  }

  function Concat(parts: seq<string>): string {
    if parts == [] then [] else parts[0] + Concat(parts[1..])
  }

  /** s with every terminator removed. */
  function RemoveTerminators(s: string): (r: string)
    ensures NoTerminator(r)
  {
    if s == [] then []
    else (if IsTerminator(s[0]) then [] else [s[0]]) + RemoveTerminators(s[1..])
  }

  /** A text without terminators loses nothing. */
  lemma {:induction false} RemoveTerminatorsOfPlain(s: string)
    requires NoTerminator(s)
    ensures RemoveTerminators(s) == s
  {
    if s != [] {
      RemoveTerminatorsOfPlain(s[1..]);
    }
  }

  /** Splitting loses only the terminators: gluing the fragments back together
      gives the text with its terminators removed. */
  lemma {:induction false} SplitLosesOnlyTerminators(s: string)
    ensures Concat(Split(s)) == RemoveTerminators(s)
    decreases |s|
  {
    var k := FirstTerminator(s);
    if k == |s| {
      SplitOfPlain(s);
    } else {
      var rest := DropTerminators(s[k..]);
      SplitLosesOnlyTerminators(rest);
      RemoveAtFirstRun(s);
    }
  }

  /** A text without terminators is its own single fragment. */
  lemma {:induction false} SplitOfPlain(s: string)
    requires FirstTerminator(s) == |s|
    ensures Concat(Split(s)) == RemoveTerminators(s)
  {
    assert s[..|s|] == s;
    RemoveTerminatorsOfPlain(s);
    assert Concat([s]) == s + Concat([]);
  }

  /** Removing the terminators keeps the text before the first run. */
  lemma {:induction false} RemoveAtFirstRun(s: string)
    requires FirstTerminator(s) < |s|
    ensures RemoveTerminators(s) == s[..FirstTerminator(s)] + RemoveTerminators(DropTerminators(s[FirstTerminator(s)..]))
  {
    var k := FirstTerminator(s);
    var rest := DropTerminators(s[k..]);
    var j := |s| - |rest|;
    assert rest == s[j..];
    RemoveTerminatorsAt(s, k, j);
  }

  /** When s[..k] has no terminator and s[k..j] is a run of them, removing the
      terminators keeps s[..k] and drops the run. */
  lemma {:induction false} RemoveTerminatorsAt(s: string, k: nat, j: nat)
    requires k <= j <= |s|
    requires NoTerminator(s[..k])
    requires forall i | k <= i < j :: IsTerminator(s[i])
    ensures RemoveTerminators(s) == s[..k] + RemoveTerminators(s[j..])
  {
    if k > 0 {
      assert s[1..][..k - 1] == s[1..k];
      assert s[1..][j - 1..] == s[j..];
      RemoveTerminatorsAt(s[1..], k - 1, j - 1);
      assert !IsTerminator(s[..k][0]);
      assert s[..k] == [s[0]] + s[1..k];
    } else if j > 0 {
      assert s[1..][j - 1..] == s[j..];
      RemoveTerminatorsAt(s[1..], 0, j - 1);
    }
  }
}
