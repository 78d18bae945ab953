/**
  The scan parser of `all_Networks` on Linux and macOS:
  `re.findall(r"(\S+)\s+(\d+)", out)` on the `nmcli -f SSID,SIGNAL dev wifi`
  or `airport -s` output, written as the left-to-right scanner the
  regular-expression engine performs.
 */
module Parser {
  import opened Wrappers
  import opened Text

  /** One `(ssid, signal)` tuple as `findall` returns it: both parts are strings. */
  datatype Network = Network(ssid: string, signal: string)

  /**
    Where the pattern matched: group 1 is `s[start..ssidEnd]`, the whitespace
    runs up to `signalStart`, and group 2 is `s[signalStart..end]`.
   */
  datatype Match = Match(start: nat, ssidEnd: nat, signalStart: nat, end: nat)

  /** The pattern matches `s[i..m]` with group 1 = `s[i..j]`, whitespace `s[j..k]` and group 2 = `s[k..m]`. */
  predicate Splits(s: string, i: nat, j: nat, k: nat, m: nat) {
    && i < j < k < m
    && RunOf(s, i, j, NonSpace)
    && RunOf(s, j, k, Space)
    && RunOf(s, k, m, Digit)
  }

  /** What `findall` captures: a non-empty token without whitespace and a non-empty digit string. */
  predicate WellFormed(n: Network) {
    |n.ssid| > 0 && AllIn(n.ssid, NonSpace) && IsDigits(n.signal)
  }

  /** Every signal is something `int()` accepts. */
  predicate Numeric(ns: seq<Network>) {
    forall q :: 0 <= q < |ns| ==> IsNumeral(ns[q].signal)
  }

  /** `int(signal)` */
  function SignalValue(n: Network): int
    requires IsNumeral(n.signal)
  {
    NumeralValue(n.signal)
  }

  /**
    The pattern tried at position `i`. `\S+` takes the rest of the token, `\s+` all
    the whitespace after it and `\d+` all the digits after that; backtracking
    cannot help, since a shorter token would be followed by a non-space and
    shorter whitespace by a non-digit.
   */
  function MatchAt(s: string, i: nat): (r: Option<Match>)
    requires i <= |s|
    ensures r.Some? ==>
      && i == r.value.start < r.value.ssidEnd < r.value.signalStart < r.value.end <= |s|
      && !At(s, r.value.end, Digit)
  {
    var j := RunEnd(s, i, NonSpace);
    if j == i || j == |s| then None
    else
      var k := RunEnd(s, j, Space);
      if !At(s, k, Digit) then None
      else Some(Match(i, j, k, RunEnd(s, k, Digit)))
  }

  /** A match found at `i` is a token, whitespace and digits, with no digit after it. */
  lemma MatchAtSound(s: string, i: nat)
    requires i <= |s|
    ensures MatchAt(s, i).Some? ==>
      var mt := MatchAt(s, i).value;
      Splits(s, i, mt.ssidEnd, mt.signalStart, mt.end) && !At(s, mt.end, Digit)
  {
    var j := RunEnd(s, i, NonSpace);
    RunEndRun(s, i, NonSpace);
    if j < |s| {
      RunEndRun(s, j, Space);
      var k := RunEnd(s, j, Space);
      if k < |s| {
        RunEndRun(s, k, Digit);
      }
    }
  }

  /** Every way the pattern can match at `i` is found, with the same token and whitespace and the longest digit run. */
  lemma MatchAtComplete(s: string, i: nat, j: nat, k: nat, m: nat)
    ensures Splits(s, i, j, k, m) ==>
      && MatchAt(s, i).Some?
      && MatchAt(s, i).value.ssidEnd == j
      && MatchAt(s, i).value.signalStart == k
      && m <= MatchAt(s, i).value.end
  {
    if Splits(s, i, j, k, m) {
      assert At(s, j, Space) && At(s, k, Digit);
      RunEndUnique(s, i, j, NonSpace);
      RunEndUnique(s, j, k, Space);
    }
  }

  /** A match inside a text of length `n`, its four positions strictly increasing. */
  predicate Spans(mt: Match, n: nat) {
    mt.start < mt.ssidEnd < mt.signalStart < mt.end <= n
  }

  /**
    A table of attempts: entry `i` is the pattern's match at position `i`, or
    `None` where it does not match there.
   */
  predicate Valid(a: seq<Option<Match>>) {
    forall i :: 0 <= i < |a| && a[i].Some? ==> i == a[i].value.start && Spans(a[i].value, |a|)
  }

  /** The pattern tried at every position of `s`. */
  function Attempts(s: string): (a: seq<Option<Match>>)
    ensures |a| == |s| && Valid(a)
  {
    seq(|s|, i requires 0 <= i < |s| => MatchAt(s, i))
  }

  /**
    The successive matches of a scan from position `i`: after a match the scan
    resumes where it ended, otherwise one character on.
   */
  function Scan(a: seq<Option<Match>>, i: nat): (r: seq<Match>)
    requires Valid(a) && i <= |a|
    ensures forall q :: 0 <= q < |r| ==> i <= r[q].start && Spans(r[q], |a|)
    decreases |a| - i
  {
    if i == |a| then []
    else
      match a[i]
      case None => Scan(a, i + 1)
      case Some(mt) => [mt] + Scan(a, mt.end)
  }

  /** A position where the pattern can match holds a match in the table. */
  lemma AttemptComplete(s: string, i: nat, j: nat, k: nat, m: nat)
    ensures Splits(s, i, j, k, m) ==> i < |s| && Attempts(s)[i].Some?
  {
    MatchAtComplete(s, i, j, k, m);
  }

  /** `mt` is the match the table holds at its start. */
  predicate Found(a: seq<Option<Match>>, mt: Match) {
    mt.start < |a| && a[mt.start] == Some(mt)
  }

  /** Every match of a scan from `i` starts at or after `i` and is the pattern's match at its start. */
  lemma {:induction false} ScanFound(a: seq<Option<Match>>, i: nat)
    requires Valid(a) && i <= |a|
    ensures forall q :: 0 <= q < |Scan(a, i)| ==> Found(a, Scan(a, i)[q])
    decreases |a| - i
  {
    if i < |a| {
      if a[i].None? {
        ScanFound(a, i + 1);
        assert Scan(a, i) == Scan(a, i + 1);
      } else {
        var mt := a[i].value;
        ScanFound(a, mt.end);
        var tail := Scan(a, mt.end);
        assert Scan(a, i) == [mt] + tail;
        assert forall q :: 0 < q < |tail| + 1 ==> ([mt] + tail)[q] == tail[q - 1];
      }
    }
  }

  /** The matches of a scan come in text order and do not overlap. */
  lemma {:induction false} ScanOrdered(a: seq<Option<Match>>, i: nat)
    requires Valid(a) && i <= |a|
    ensures forall q :: 0 < q < |Scan(a, i)| ==> Scan(a, i)[q - 1].end <= Scan(a, i)[q].start
    decreases |a| - i
  {
    if i < |a| {
      if a[i].None? {
        ScanOrdered(a, i + 1);
      } else {
        var mt := a[i].value;
        ScanOrdered(a, mt.end);
        ScanFound(a, mt.end);
        var tail := Scan(a, mt.end);
        assert forall q :: 0 < q < |tail| + 1 ==> ([mt] + tail)[q] == tail[q - 1];
      }
    }
  }

  /** Position `p` lies inside one of the matches. */
  ghost predicate Covered(ms: seq<Match>, p: nat) {
    exists q :: 0 <= q < |ms| && ms[q].start <= p < ms[q].end
  }

  lemma CoveredCons(mt: Match, tail: seq<Match>, p: nat)
    ensures (mt.start <= p < mt.end || Covered(tail, p)) ==> Covered([mt] + tail, p)
  {
    if mt.start <= p < mt.end {
      assert ([mt] + tail)[0] == mt;
    } else if Covered(tail, p) {
      var q :| 0 <= q < |tail| && tail[q].start <= p < tail[q].end;
      assert ([mt] + tail)[q + 1] == tail[q];
    }
  }

  /** No position where the pattern matches is skipped: each lies inside one of the scan's matches. */
  lemma {:induction false} ScanCover(a: seq<Option<Match>>, i: nat, p: nat)
    requires Valid(a) && i <= p < |a| && a[p].Some?
    ensures Covered(Scan(a, i), p)
    decreases |a| - i
  {
    if a[i].None? {
      ScanCover(a, i + 1, p);
    } else {
      var mt := a[i].value;
      if mt.end <= p {
        ScanCover(a, mt.end, p);
      }
      CoveredCons(mt, Scan(a, mt.end), p);
    }
  }

  /** A scan from `i` finds nothing exactly when the pattern matches nowhere from `i` on. */
  lemma {:induction false} ScanEmptyIff(a: seq<Option<Match>>, i: nat)
    requires Valid(a) && i <= |a|
    ensures Scan(a, i) == [] <==> forall p :: i <= p < |a| ==> a[p].None?
    decreases |a| - i
  {
    if i < |a| && a[i].None? {
      ScanEmptyIff(a, i + 1);
    }
  }

  /** Positions where the pattern does not match are passed over. */
  lemma {:induction false} ScanSkip(a: seq<Option<Match>>, i: nat, j: nat)
    requires Valid(a) && i <= j <= |a|
    requires forall p :: i <= p < j ==> a[p].None?
    ensures Scan(a, i) == Scan(a, j)
    decreases j - i
  {
    if i < j {
      assert a[i].None?;
      ScanSkip(a, i + 1, j);
    }
  }

  /** A match moved `d` positions on. */
  function Moved(mt: Match, d: nat): (r: Match)
    ensures Spans(mt, mt.end) ==> Spans(r, r.end)
  {
    Match(d + mt.start, d + mt.ssidEnd, d + mt.signalStart, d + mt.end)
  }

  function MovedOpt(o: Option<Match>, d: nat): Option<Match> {
    if o.None? then None else Some(Moved(o.value, d))
  }

  /** The matches moved `d` positions on. */
  function AllMoved(ms: seq<Match>, d: nat): (r: seq<Match>)
    ensures |r| == |ms|
  {
    if ms == [] then [] else [Moved(ms[0], d)] + AllMoved(ms[1..], d)
  }

  lemma AllMovedCons(mt: Match, ms: seq<Match>, d: nat)
    ensures AllMoved([mt] + ms, d) == [Moved(mt, d)] + AllMoved(ms, d)
  {
    assert ([mt] + ms)[1..] == ms;
  }

  /** From position `d` on, table `a` holds the entries of `b` moved by `d`. */
  predicate MovedFrom(a: seq<Option<Match>>, b: seq<Option<Match>>, d: nat) {
    |a| == d + |b| && forall x :: 0 <= x < |b| ==> a[d + x] == MovedOpt(b[x], d)
  }

  /** A scan of `a` from `d + p` finds the matches of a scan of `b` from `p`, moved by `d`. */
  lemma {:induction false} ScanShift(a: seq<Option<Match>>, b: seq<Option<Match>>, d: nat, p: nat)
    requires Valid(a) && Valid(b) && MovedFrom(a, b, d) && p <= |b|
    ensures Scan(a, d + p) == AllMoved(Scan(b, p), d)
    decreases |b| - p
  {
    if p < |b| {
      assert a[d + p] == MovedOpt(b[p], d);
      if b[p].None? {
        ScanShift(a, b, d, p + 1);
      } else {
        var mt := b[p].value;
        ScanShift(a, b, d, mt.end);
        AllMovedCons(mt, Scan(b, mt.end), d);
      }
    }
  }

  /** The two groups of a match. */
  function Groups(s: string, mt: Match): Network
    requires Spans(mt, |s|)
  {
    Network(s[mt.start..mt.ssidEnd], s[mt.signalStart..mt.end])
  }

  function GroupsOf(s: string, ms: seq<Match>): (r: seq<Network>)
    requires forall q :: 0 <= q < |ms| ==> Spans(ms[q], |s|)
    ensures |r| == |ms|
  {
    if ms == [] then [] else [Groups(s, ms[0])] + GroupsOf(s, ms[1..])
  }

  /** The pairs of a scan of `s` from `i`. */
  function FindAllFrom(s: string, i: nat): seq<Network>
    requires i <= |s|
  {
    GroupsOf(s, Scan(Attempts(s), i))
  }

  /** `re.findall(r"(\S+)\s+(\d+)", s)` */
  function FindAll(s: string): seq<Network> {
    FindAllFrom(s, 0)
  }

  /** The captured groups of a match are a token and a digit string. */
  lemma GroupsWellFormed(s: string, i: nat)
    requires i <= |s| && MatchAt(s, i).Some?
    ensures WellFormed(Groups(s, MatchAt(s, i).value))
  {
    var mt := MatchAt(s, i).value;
    MatchAtSound(s, i);
    var n := Groups(s, mt);
    assert forall p :: 0 <= p < |n.ssid| ==> n.ssid[p] == s[i + p] && At(s, i + p, NonSpace);
    assert forall p :: 0 <= p < |n.signal| ==> n.signal[p] == s[mt.signalStart + p] && At(s, mt.signalStart + p, Digit);
  }

  lemma {:induction false} GroupsOfWellFormed(s: string, ms: seq<Match>)
    requires forall q :: 0 <= q < |ms| ==> Spans(ms[q], |s|) && MatchAt(s, ms[q].start) == Some(ms[q])
    ensures forall q :: 0 <= q < |ms| ==> WellFormed(GroupsOf(s, ms)[q])
  {
    if ms != [] {
      GroupsWellFormed(s, ms[0].start);
      GroupsOfWellFormed(s, ms[1..]);
      var r := GroupsOf(s, ms);
      assert forall q :: 0 < q < |ms| ==> r[q] == GroupsOf(s, ms[1..])[q - 1];
    }
  }

  /** Every pair `findall` returns is a token without whitespace and a digit string. */
  lemma FindAllWellFormed(s: string)
    ensures var r := FindAll(s); forall q :: 0 <= q < |r| ==> WellFormed(r[q])
  {
    var a := Attempts(s);
    ScanFound(a, 0);
    var ms := Scan(a, 0);
    assert forall q :: 0 <= q < |ms| ==> MatchAt(s, ms[q].start) == a[ms[q].start];
    GroupsOfWellFormed(s, ms);
  }

  /**
    A scan output yields no pairs exactly when no token in it is followed by
    whitespace and then a digit; `all_Networks` then returns `[]`.
   */
  lemma NoPairsIffNoPattern(s: string)
    ensures FindAll(s) == [] <==> forall i: nat, j: nat, k: nat, m: nat :: !Splits(s, i, j, k, m)
  {
    var a := Attempts(s);
    ScanEmptyIff(a, 0);
    if FindAll(s) == [] {
      forall i: nat, j: nat, k: nat, m: nat ensures !Splits(s, i, j, k, m) {
        AttemptComplete(s, i, j, k, m);
      }
    } else {
      var i :| 0 <= i < |s| && a[i].Some?;
      assert a[i] == MatchAt(s, i);
      var mt := MatchAt(s, i).value;
      MatchAtSound(s, i);
      assert Splits(s, i, mt.ssidEnd, mt.signalStart, mt.end);
    }
  }

  /** `s` continues, from position `d` on, exactly as `t` does. */
  predicate SuffixAt(s: string, t: string, d: nat) {
    |s| == d + |t| && forall x :: 0 <= x < |t| ==> s[d + x] == t[x]
  }

  lemma RunEndShift(s: string, t: string, d: nat, p: nat, cl: Class)
    requires SuffixAt(s, t, d) && p <= |t|
    ensures RunEnd(s, d + p, cl) == d + RunEnd(t, p, cl)
  {
    var q := RunEnd(t, p, cl);
    RunEndRun(t, p, cl);
    assert q < |t| ==> s[d + q] == t[q];
    forall x | d + p <= x < d + q ensures At(s, x, cl) {
      assert s[d + (x - d)] == t[x - d];
      assert At(t, x - d, cl);
    }
    RunEndUnique(s, d + p, d + q, cl);
  }

  /** `MatchAt` once its token and its whitespace are known. */
  lemma MatchAtParts(s: string, i: nat, j: nat, k: nat)
    requires i <= |s| && j == RunEnd(s, i, NonSpace) && i < j < |s| && k == RunEnd(s, j, Space)
    ensures MatchAt(s, i) == if At(s, k, Digit) then Some(Match(i, j, k, RunEnd(s, k, Digit))) else None
  {
  }

  /** A match in `t` moves to `s` once the runs it is made of have moved. */
  lemma MatchAtMoved(s: string, t: string, d: nat, p: nat, j: nat, k: nat)
    requires |s| == d + |t| && p <= |t| && j == RunEnd(t, p, NonSpace) && p < j < |t| && k == RunEnd(t, j, Space)
    requires RunEnd(s, d + p, NonSpace) == d + j && RunEnd(s, d + j, Space) == d + k
    requires At(s, d + k, Digit) == At(t, k, Digit)
    requires At(t, k, Digit) ==> RunEnd(s, d + k, Digit) == d + RunEnd(t, k, Digit)
    ensures MatchAt(s, d + p) == MovedOpt(MatchAt(t, p), d)
  {
    MatchAtParts(t, p, j, k);
    MatchAtParts(s, d + p, d + j, d + k);
  }

  /** The pattern matches at `d + p` in `s` exactly as it does at `p` in `t`. */
  lemma MatchAtShift(s: string, t: string, d: nat, p: nat)
    requires SuffixAt(s, t, d) && p <= |t|
    ensures MatchAt(s, d + p) == MovedOpt(MatchAt(t, p), d)
  {
    RunEndShift(s, t, d, p, NonSpace);
    var j := RunEnd(t, p, NonSpace);
    if j == p || j == |t| {
      assert MatchAt(t, p) == None;
      assert MatchAt(s, d + p) == None;
    } else {
      RunEndShift(s, t, d, j, Space);
      var k := RunEnd(t, j, Space);
      if k < |t| {
        assert s[d + k] == t[k];
        RunEndShift(s, t, d, k, Digit);
      }
      MatchAtMoved(s, t, d, p, j, k);
    }
  }

  lemma AttemptsShift(s: string, t: string, d: nat)
    requires SuffixAt(s, t, d)
    ensures MovedFrom(Attempts(s), Attempts(t), d)
  {
    forall x | 0 <= x < |t| ensures Attempts(s)[d + x] == MovedOpt(Attempts(t)[x], d) {
      MatchAtShift(s, t, d, x);
    }
  }

  /** Moved matches capture the same groups. */
  lemma {:induction false} GroupsOfShift(s: string, t: string, d: nat, ms: seq<Match>)
    requires SuffixAt(s, t, d) && forall q :: 0 <= q < |ms| ==> Spans(ms[q], |t|)
    ensures forall q :: 0 <= q < |ms| ==> Spans(AllMoved(ms, d)[q], |s|)
    ensures GroupsOf(s, AllMoved(ms, d)) == GroupsOf(t, ms)
  {
    if ms != [] {
      var mt := ms[0];
      GroupsOfShift(s, t, d, ms[1..]);
      AllMovedCons(mt, ms[1..], d);
      assert ms == [mt] + ms[1..];
      assert s[d + mt.start..d + mt.ssidEnd] == t[mt.start..mt.ssidEnd];
      assert s[d + mt.signalStart..d + mt.end] == t[mt.signalStart..mt.end];
    }
  }

  /** What follows position `d` of `s` is scanned as `t` would be on its own. */
  lemma FindAllShift(s: string, t: string, d: nat)
    requires SuffixAt(s, t, d)
    ensures FindAllFrom(s, d) == FindAll(t)
  {
    AttemptsShift(s, t, d);
    ScanGroupsShift(s, t, d, Attempts(s), Attempts(t));
  }

  lemma ScanGroupsShift(s: string, t: string, d: nat, a: seq<Option<Match>>, b: seq<Option<Match>>)
    requires SuffixAt(s, t, d) && |a| == |s| && |b| == |t|
    requires Valid(a) && Valid(b) && MovedFrom(a, b, d)
    ensures GroupsOf(s, Scan(a, d)) == GroupsOf(t, Scan(b, 0))
  {
    ScanShift(a, b, d, 0);
    GroupsOfShift(s, t, d, Scan(b, 0));
  }

  /** The pattern matches at `i` with exactly these parts. */
  lemma MatchAtIs(s: string, i: nat, j: nat, k: nat, m: nat)
    requires Splits(s, i, j, k, m) && !At(s, m, Digit)
    ensures MatchAt(s, i) == Some(Match(i, j, k, m))
  {
    MatchAtComplete(s, i, j, k, m);
    RunEndUnique(s, k, m, Digit);
  }

  /** A step of `findall` past a position where the pattern does not match. */
  lemma FindAllFromNone(s: string, i: nat)
    requires i < |s| && MatchAt(s, i).None?
    ensures FindAllFrom(s, i) == FindAllFrom(s, i + 1)
  {
    assert Attempts(s)[i] == MatchAt(s, i);
  }

  /** A step of `findall` at a match: its groups come first, then the scan resumes at its end. */
  lemma FindAllFromSome(s: string, i: nat)
    requires i < |s| && MatchAt(s, i).Some?
    ensures Spans(MatchAt(s, i).value, |s|)
    ensures FindAllFrom(s, i) == [Groups(s, MatchAt(s, i).value)] + FindAllFrom(s, MatchAt(s, i).value.end)
  {
    var a := Attempts(s);
    var mt := MatchAt(s, i).value;
    assert a[i] == Some(mt);
    var tail := Scan(a, mt.end);
    assert Scan(a, i) == [mt] + tail;
    assert ([mt] + tail)[1..] == tail;
  }

  /** A stretch of positions where the pattern does not match is passed over. */
  lemma FindAllFromSkip(s: string, i: nat, j: nat)
    requires i <= j <= |s| && forall p :: i <= p < j ==> MatchAt(s, p).None?
    ensures FindAllFrom(s, i) == FindAllFrom(s, j)
  {
    var a := Attempts(s);
    assert forall p :: i <= p < j ==> a[p] == MatchAt(s, p);
    ScanSkip(a, i, j);
  }

  /**
    Table `a` extends table `b` with positions where the pattern does not match:
    a scan of either from a position of `b` finds the same matches.
   */
  lemma {:induction false} ScanPrefix(a: seq<Option<Match>>, b: seq<Option<Match>>, i: nat)
    requires Valid(a) && Valid(b) && |b| <= |a| && i <= |b|
    requires forall p :: 0 <= p < |b| ==> a[p] == b[p]
    requires forall p :: |b| <= p < |a| ==> a[p].None?
    ensures Scan(a, i) == Scan(b, i)
    decreases |b| - i
  {
    if i == |b| {
      ScanSkip(a, i, |a|);
    } else if b[i].None? {
      ScanPrefix(a, b, i + 1);
    } else {
      ScanPrefix(a, b, b[i].value.end);
    }
  }

  /** Matches within the first `|r|` characters capture the same groups in any extension of `r`. */
  lemma {:induction false} GroupsOfPrefix(u: string, r: string, ms: seq<Match>)
    requires |r| <= |u| && r == u[..|r|]
    requires forall q :: 0 <= q < |ms| ==> Spans(ms[q], |r|) && Spans(ms[q], |u|)
    ensures GroupsOf(u, ms) == GroupsOf(r, ms)
  {
    if ms != [] {
      var mt := ms[0];
      GroupsOfPrefix(u, r, ms[1..]);
      SliceOfPrefix(u, r, mt.start, mt.ssidEnd);
      SliceOfPrefix(u, r, mt.signalStart, mt.end);
    }
  }

  lemma SliceOfPrefix(u: string, r: string, i: nat, j: nat)
    requires |r| <= |u| && r == u[..|r|] && i <= j <= |r|
    ensures u[i..j] == r[i..j]
  {
    assert forall x :: i <= x < j ==> u[x] == u[..|r|][x];
  }
}
