/** `re.findall(kw + r"\s+(.+?)(?:\.|$)", t)` for a literal keyword kw, as a
    hand-written scanner. Python's backtracking order is kept: the greedy
    `\s+` takes the whole whitespace run first and gives characters back one
    at a time; the lazy `(.+?)` then tries the shortest capture first; `.`
    never matches a newline; `$` matches at the end of the text or just before
    a final newline; the search resumes where the previous match ended. */
module ActionPatterns {
  import opened PyStr
  import opened Wrappers

  /** `(?:\.|$)` matches at position e. */
  predicate TerminatesAt(t: string, e: nat) {
    (e < |t| && t[e] == '.') || e == |t| || (e + 1 == |t| && t[e] == '\n')
  }

  /** `(.+?)(?:\.|$)` accepts the capture t[c..e]. */
  ghost predicate CaptureOk(t: string, c: int, e: int) {
    0 <= c < e <= |t| && (forall k | c <= k < e :: t[k] != '\n') && TerminatesAt(t, e)
  }

  /** The whole pattern matches at p with capture t[c..e]. */
  ghost predicate MatchOk(t: string, kw: string, p: int, c: int, e: int) {
    0 <= p && p + |kw| < c && CaptureOk(t, c, e) && t[p..p + |kw|] == kw
    && (forall k | p + |kw| <= k < c :: IsSpace(t[k]))
  }

  /** The lazy `(.+?)` from c with ends e, e + 1, ... tried in turn. */
  function ScanEnd(t: string, c: nat, e: nat): (r: Option<nat>)
    requires c < e <= |t|
    requires forall k | c <= k < e - 1 :: t[k] != '\n'
    ensures r.Some? ==> CaptureOk(t, c, r.value)
                        && forall e' | e <= e' < r.value :: !CaptureOk(t, c, e')
    ensures r.None? <==> forall e' | e <= e' :: !CaptureOk(t, c, e')
    decreases |t| - e
  {
    if t[e - 1] == '\n' then None
    else if TerminatesAt(t, e) then Some(e)
    else ScanEnd(t, c, e + 1)
  }

  /** Capture starts c, c - 1, ..., q + 1 tried in turn, as `\s+` backtracks. */
  function Backtrack(t: string, q: nat, c: nat): (r: Option<(nat, nat)>)
    requires q < c <= |t|
    ensures r.Some? ==> q < r.value.0 <= c && CaptureOk(t, r.value.0, r.value.1)
                        && (forall c', e' | r.value.0 < c' <= c :: !CaptureOk(t, c', e'))
                        && (forall e' | e' < r.value.1 :: !CaptureOk(t, r.value.0, e'))
    ensures r.None? <==> forall c', e' | q < c' <= c :: !CaptureOk(t, c', e')
    decreases c
  {
    var found := if c < |t| then ScanEnd(t, c, c + 1) else None;
    match found
    case Some(e) => Some((c, e))
    case None => if c - 1 > q then Backtrack(t, q, c - 1) else None
  }

  /** End of the whitespace run that starts at q. */
  function SpaceRunEnd(t: string, q: nat): (w: nat)
    requires q <= |t|
    ensures q <= w <= |t|
    ensures forall k | q <= k < w :: IsSpace(t[k])
    ensures w == |t| || !IsSpace(t[w])
    decreases |t| - q
  {
    if q < |t| && IsSpace(t[q]) then SpaceRunEnd(t, q + 1) else q
  }

  /** The pattern tried at p: the capture Python's matcher settles on. It
      matches exactly when some capture fits the pattern there; the capture
      it returns starts as late as any fitting capture (greedy `\s+`) and,
      for that start, ends as early as any (lazy `(.+?)`). */
  function MatchAt(t: string, kw: string, p: nat): (r: Option<(nat, nat)>)
    requires p <= |t|
    ensures r.Some? ==> MatchOk(t, kw, p, r.value.0, r.value.1)
    ensures r.Some? ==> forall c, e | MatchOk(t, kw, p, c, e) ::
                          c <= r.value.0 && (c == r.value.0 ==> r.value.1 <= e)
    ensures r.None? <==> forall c, e :: !MatchOk(t, kw, p, c, e)
  {
    if !(kw <= t[p..]) then
      None
    else
      var q := p + |kw|;
      assert t[p..q] == kw by {
        assert t[p..][..|kw|] == t[p..q];
      }
      var w := SpaceRunEnd(t, q);
      assert forall c, e | MatchOk(t, kw, p, c, e) :: c <= w;
      if w == q then None else Backtrack(t, q, w)
  }

  /** Where the search resumes: after the `.` if one was consumed. */
  function MatchEnd(t: string, e: nat): (r: nat)
    ensures r == e || (r == e + 1 && e < |t| && t[e] == '.')
  {
    if e < |t| && t[e] == '.' then e + 1 else e
  }

  /** m is a capture of the pattern somewhere in t. */
  ghost predicate IsCapture(t: string, kw: string, m: string) {
    exists p, c, e :: MatchOk(t, kw, p, c, e) && m == t[c..e]
  }

  /** `re.findall` from position p: the captures, left to right, of matches
      that do not overlap. */
  function FindFrom(t: string, kw: string, p: nat): (ms: seq<string>)
    requires p <= |t|
    ensures forall i | 0 <= i < |ms| :: |ms[i]| > 0
    ensures forall i | 0 <= i < |ms| :: forall k | 0 <= k < |ms[i]| :: ms[i][k] != '\n'
    decreases |t| - p
  {
    if p == |t| then []
    else
      match MatchAt(t, kw, p)
      case None => FindFrom(t, kw, p + 1)
      case Some((c, e)) => [t[c..e]] + FindFrom(t, kw, MatchEnd(t, e))
  }

  /** Everything `re.findall` returns is a capture of the pattern in t. */
  lemma {:induction false} FindFromCaptures(t: string, kw: string, p: nat)
    requires p <= |t|
    ensures forall i | 0 <= i < |FindFrom(t, kw, p)| :: IsCapture(t, kw, FindFrom(t, kw, p)[i])
    decreases |t| - p
  {
    if p < |t| {
      match MatchAt(t, kw, p)
      case None =>
        FindFromCaptures(t, kw, p + 1);
      case Some((c, e)) =>
        var rest := FindFrom(t, kw, MatchEnd(t, e));
        FindFromCaptures(t, kw, MatchEnd(t, e));
        assert IsCapture(t, kw, t[c..e]);
        assert FindFrom(t, kw, p) == [t[c..e]] + rest;
    }
  }

  /** The search finds nothing exactly when the pattern matches at no
      position from p on. */
  lemma {:induction false} FindFromEmptyIff(t: string, kw: string, p: nat)
    requires p <= |t|
    ensures FindFrom(t, kw, p) == [] <==> forall q | p <= q <= |t| :: MatchAt(t, kw, q).None?
    decreases |t| - p
  {
    if p < |t| && MatchAt(t, kw, p).None? {
      FindFromEmptyIff(t, kw, p + 1);
    }
  }

  /** When q is the leftmost position from p on where the pattern matches, the
      search returns the capture matched at q first, then resumes after that
      match. */
  lemma {:induction false} FindFromLeftmost(t: string, kw: string, p: nat, q: nat)
    requires p <= q <= |t| && MatchAt(t, kw, q).Some?
    requires forall q' | p <= q' < q :: MatchAt(t, kw, q').None?
    ensures var (c, e) := MatchAt(t, kw, q).value;
            FindFrom(t, kw, p) == [t[c..e]] + FindFrom(t, kw, MatchEnd(t, e))
    decreases q - p
  {
    if p < q {
      FindFromLeftmost(t, kw, p + 1, q);
    }
  }

  /** `re.findall` over the whole text. */
  function FindAll(t: string, kw: string): (ms: seq<string>)
    ensures forall i | 0 <= i < |ms| :: |ms[i]| > 0
  {
    FindFrom(t, kw, 0)
  }
}
