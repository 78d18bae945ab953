/**
  What the scan parser makes of the two-column listings that
  `nmcli -f SSID,SIGNAL dev wifi` prints: a record is a token, whitespace and
  a number, whitespace between records is skipped, and the parse resumes
  right after each number.
 */
module Layout {
  import opened Wrappers
  import opened Text
  import opened Parser

  /** A token, whitespace and digits open the text: that is its first pair, and the rest is scanned on its own. */
  lemma HeadRecord(w: string, sep: string, g: string, rest: string)
    requires |w| > 0 && AllIn(w, NonSpace) && |sep| > 0 && AllIn(sep, Space) && IsDigits(g)
    requires rest == [] || !IsDigit(rest[0])
    ensures FindAll(w + sep + g + rest) == [Network(w, g)] + FindAll(rest)
  {
    var s := w + sep + g + rest;
    var k := |w| + |sep|;
    var m := k + |g|;
    HeadMatch(w, sep, g, rest);
    FindAllFromSome(s, 0);
    assert s[0..|w|] == w && s[k..m] == g;
    assert forall x :: 0 <= x < |rest| ==> s[m + x] == rest[x];
    FindAllShift(s, rest, m);
  }

  /** Where the pattern matches at the start of such a text. */
  lemma HeadMatch(w: string, sep: string, g: string, rest: string)
    requires |w| > 0 && AllIn(w, NonSpace) && |sep| > 0 && AllIn(sep, Space) && IsDigits(g)
    requires rest == [] || !IsDigit(rest[0])
    ensures var k := |w| + |sep|;
      MatchAt(w + sep + g + rest, 0) == Some(Match(0, |w|, k, k + |g|))
  {
    var s := w + sep + g + rest;
    var j, k := |w|, |w| + |sep|;
    var m := k + |g|;
    assert forall p :: 0 <= p < j ==> s[p] == w[p] && At(s, p, NonSpace);
    assert forall p :: j <= p < k ==> s[p] == sep[p - j] && At(s, p, Space);
    assert forall p :: k <= p < m ==> s[p] == g[p - k] && At(s, p, Digit);
    assert m < |s| ==> s[m] == rest[0];
    MatchAtIs(s, 0, j, k, m);
  }

  /** Leading whitespace yields nothing. */
  lemma SkipSpaces(sep: string, rest: string)
    requires AllIn(sep, Space)
    ensures FindAll(sep + rest) == FindAll(rest)
  {
    var s := sep + rest;
    forall p | 0 <= p < |sep| ensures MatchAt(s, p).None? {
      assert s[p] == sep[p] && !At(s, p, NonSpace);
    }
    FindAllFromSkip(s, 0, |sep|);
    assert forall x :: 0 <= x < |rest| ==> s[|sep| + x] == rest[x];
    FindAllShift(s, rest, |sep|);
  }

  /** A token followed by whitespace and then neither whitespace nor a digit yields nothing. */
  lemma SkipWord(w: string, sep: string, rest: string)
    requires AllIn(w, NonSpace) && |sep| > 0 && AllIn(sep, Space)
    requires rest == [] || (!IsSpace(rest[0]) && !IsDigit(rest[0]))
    ensures FindAll(w + sep + rest) == FindAll(rest)
  {
    var s := w + sep + rest;
    var k := |w| + |sep|;
    WordNoMatch(w, sep, rest);
    FindAllFromSkip(s, 0, k);
    assert forall x :: 0 <= x < |rest| ==> s[k + x] == rest[x];
    FindAllShift(s, rest, k);
  }

  lemma WordNoMatch(w: string, sep: string, rest: string)
    requires AllIn(w, NonSpace) && |sep| > 0 && AllIn(sep, Space)
    requires rest == [] || (!IsSpace(rest[0]) && !IsDigit(rest[0]))
    ensures forall p :: 0 <= p < |w| + |sep| ==> MatchAt(w + sep + rest, p).None?
  {
    var s := w + sep + rest;
    var j, k := |w|, |w| + |sep|;
    assert forall p :: 0 <= p < j ==> s[p] == w[p] && At(s, p, NonSpace);
    assert forall p :: j <= p < k ==> s[p] == sep[p - j] && At(s, p, Space);
    assert k < |s| ==> s[k] == rest[0];
    assert !At(s, k, Space) && !At(s, k, Digit);
    NoMatchBefore(s, j, k);
  }

  /** No match starts in a token or the whitespace after it when neither whitespace nor a digit follows. */
  lemma NoMatchBefore(s: string, j: nat, k: nat)
    requires RunOf(s, 0, j, NonSpace) && RunOf(s, j, k, Space) && j < k
    requires !At(s, k, Space) && !At(s, k, Digit)
    ensures forall p :: 0 <= p < k ==> MatchAt(s, p).None?
  {
    RunEndUnique(s, j, k, Space);
    forall p | 0 <= p < k ensures MatchAt(s, p).None? {
      if p < j {
        RunEndUnique(s, p, j, NonSpace);
      } else {
        assert At(s, p, Space);
      }
    }
  }

  /** One row of the listing: the SSID, a space, the signal and a line break. */
  function Line(n: Network): string {
    n.ssid + " " + n.signal + "\n"
  }

  /** The rows of a listing, one per line. */
  function Render(rows: seq<Network>): string {
    if rows == [] then [] else Line(rows[0]) + Render(rows[1..])
  }

  /** A listing of well-formed rows parses back to exactly its rows, in order. */
  lemma {:induction false} RenderRoundTrip(rows: seq<Network>)
    requires forall q :: 0 <= q < |rows| ==> WellFormed(rows[q])
    ensures FindAll(Render(rows)) == rows
  {
    if rows != [] {
      var n := rows[0];
      var rest := Render(rows[1..]);
      assert Render(rows) == n.ssid + " " + n.signal + ("\n" + rest);
      assert AllIn(" ", Space) && AllIn("\n", Space);
      HeadRecord(n.ssid, " ", n.signal, "\n" + rest);
      SkipSpaces("\n", rest);
      RenderRoundTrip(rows[1..]);
      assert rows == [n] + rows[1..];
    }
  }

  /** The header line `nmcli -f SSID,SIGNAL` prints above the rows. */
  const Header: string := "SSID SIGNAL\n"

  /** What `nmcli -f SSID,SIGNAL dev wifi` prints: the header, then one row per network. */
  function Listing(rows: seq<Network>): string {
    Header + Render(rows)
  }

  /** The SSID begins with a digit. */
  predicate DigitLed(n: Network) {
    n.ssid != [] && IsDigit(n.ssid[0])
  }

  lemma HeaderSplit(body: string)
    ensures Header + body == "SSID" + " " + ("SIGNAL" + "\n" + body)
    ensures AllIn(" ", Space) && AllIn("\n", Space) && AllIn("SSID", NonSpace) && AllIn("SIGNAL", NonSpace)
  {
  }

  /**
    The header yields no pair as long as the first SSID does not begin with a
    digit; the rows are then parsed back exactly.
   */
  lemma ListingRoundTrip(rows: seq<Network>)
    requires forall q :: 0 <= q < |rows| ==> WellFormed(rows[q])
    requires rows == [] || !DigitLed(rows[0])
    ensures FindAll(Listing(rows)) == rows
  {
    var body := Render(rows);
    HeaderSplit(body);
    if rows != [] {
      assert body[0] == rows[0].ssid[0];
    }
    SkipWord("SIGNAL", "\n", body);
    SkipWord("SSID", " ", "SIGNAL" + "\n" + body);
    RenderRoundTrip(rows);
  }

  /**
    When the first SSID begins with a digit, the header's `SIGNAL` is taken for
    an SSID and the leading digits of that SSID for its signal, so the rows do
    not come back.
   */
  lemma HeaderCaptured(rows: seq<Network>)
    requires |rows| > 0 && forall q :: 0 <= q < |rows| ==> WellFormed(rows[q])
    requires DigitLed(rows[0])
    ensures FindAll(Listing(rows)) != rows
    ensures |FindAll(Listing(rows))| > 0 && FindAll(Listing(rows))[0].ssid == "SIGNAL"
  {
    var body := Render(rows);
    HeaderSplit(body);
    var s := "SIGNAL" + "\n" + body;
    SkipWord("SSID", " ", s);
    assert s[7] == body[0] == rows[0].ssid[0];
    assert forall p :: 0 <= p < 6 ==> s[p] == "SIGNAL"[p] && At(s, p, NonSpace);
    assert At(s, 6, Space) && !At(s, 6, NonSpace) && !At(s, 7, Space) && At(s, 7, Digit);
    RunEndUnique(s, 0, 6, NonSpace);
    RunEndUnique(s, 6, 7, Space);
    FindAllFromSome(s, 0);
    assert s[0..6] == "SIGNAL";
  }

  /** Trailing whitespace after a non-space does not change where the pattern matches in `r`. */
  lemma MatchAtTrailing(r: string, trail: string, p: nat)
    requires AllIn(trail, Space) && (r == [] || !IsSpace(r[|r| - 1])) && p < |r|
    ensures MatchAt(r + trail, p) == MatchAt(r, p)
  {
    var u := r + trail;
    assert u[..|r|] == r;
    assert |r| < |u| ==> u[|r|] == trail[0];
    assert !At(u, |r|, NonSpace) && !At(u, |r|, Digit);
    RunEndPrefix(u, r, p, NonSpace);
    var j := RunEnd(r, p, NonSpace);
    if j != p && j < |r| {
      RunEndRun(r, j, Space);
      var k := RunEnd(r, j, Space);
      assert !At(r, |r| - 1, Space);
      assert k < |r|;
      RunEndPrefix(u, r, j, Space);
      assert u[k] == r[k];
      if At(r, k, Digit) {
        RunEndPrefix(u, r, k, Digit);
      }
    } else if j != p {
      assert forall x :: |r| <= x < |u| ==> u[x] == trail[x - |r|] && At(u, x, Space);
      RunEndUnique(u, j, |u|, Space);
    }
  }

  /** Whitespace after the last non-space character yields nothing. */
  lemma TrailingIgnored(r: string, trail: string)
    requires AllIn(trail, Space) && (r == [] || !IsSpace(r[|r| - 1]))
    ensures FindAll(r + trail) == FindAll(r)
  {
    var u := r + trail;
    var a, b := Attempts(u), Attempts(r);
    forall p | 0 <= p < |r| ensures a[p] == b[p] {
      MatchAtTrailing(r, trail, p);
    }
    forall p | |r| <= p < |u| ensures a[p].None? {
      assert u[p] == trail[p - |r|] && !At(u, p, NonSpace);
    }
    ScanPrefix(a, b, 0);
    assert u[..|r|] == r;
    GroupsOfPrefix(u, r, Scan(b, 0));
  }

  /** The `strip()` of the output before the scan changes nothing in what it finds. */
  lemma StripIgnored(s: string)
    ensures FindAll(Strip(s)) == FindAll(s)
  {
    StripSlice(s);
    var a := RunEnd(s, 0, Space);
    var t := s[a..];
    assert s == s[..a] + t;
    SkipSpaces(s[..a], t);
    var r := Strip(s);
    assert t == r + t[|r|..];
    TrailingIgnored(r, t[|r|..]);
  }

  /**
    After a match the scan resumes right behind the digits, inside the token
    they begin: `x 12abc 34` yields `("x", "12")` and `("abc", "34")`.
   */
  lemma ResumeInsideToken(w1: string, g1: string, w2: string, g2: string)
    requires |w1| > 0 && AllIn(w1, NonSpace) && IsDigits(g1)
    requires |w2| > 0 && AllIn(w2, NonSpace) && !IsDigit(w2[0]) && IsDigits(g2)
    ensures FindAll(w1 + " " + g1 + w2 + " " + g2) == [Network(w1, g1), Network(w2, g2)]
  {
    var rest := w2 + " " + g2;
    assert w1 + " " + g1 + w2 + " " + g2 == w1 + " " + g1 + rest;
    assert rest == w2 + " " + g2 + [];
    assert AllIn(" ", Space);
    HeadRecord(w2, " ", g2, []);
    HeadRecord(w1, " ", g1, rest);
  }

  /** Of an SSID with a space in it only the last word is captured: `My Net 70` yields `("Net", "70")`. */
  lemma SpacedSsidLosesWords(w1: string, w2: string, g: string)
    requires |w1| > 0 && AllIn(w1, NonSpace)
    requires |w2| > 0 && AllIn(w2, NonSpace) && !IsDigit(w2[0]) && IsDigits(g)
    ensures FindAll(w1 + " " + w2 + " " + g) == [Network(w2, g)]
  {
    var rest := w2 + " " + g;
    assert w1 + " " + w2 + " " + g == w1 + " " + rest;
    assert rest == w2 + " " + g + [];
    assert AllIn(" ", Space);
    SkipWord(w1, " ", rest);
    HeadRecord(w2, " ", g, []);
  }

  /**
    A row of `airport -s` (SSID, BSSID, RSSI, channel, ...) whose BSSID begins
    with a letter yields the RSSI as the SSID and the channel as the signal: the
    negative RSSI itself is never captured as a signal.
   */
  lemma AirportRow(ssid: string, bssid: string, rssi: string, channel: string, tail: string)
    requires |ssid| > 0 && AllIn(ssid, NonSpace)
    requires |bssid| > 0 && AllIn(bssid, NonSpace) && !IsDigit(bssid[0])
    requires |rssi| > 0 && AllIn(rssi, NonSpace) && rssi[0] == '-'
    requires IsDigits(channel) && (tail == [] || !IsDigit(tail[0]))
    ensures FindAll(ssid + " " + bssid + " " + rssi + " " + channel + tail) == [Network(rssi, channel)] + FindAll(tail)
  {
    var r3 := rssi + " " + channel + tail;
    var r2 := bssid + " " + r3;
    assert ssid + " " + bssid + " " + rssi + " " + channel + tail == ssid + " " + r2;
    assert AllIn(" ", Space);
    HeadRecord(rssi, " ", channel, tail);
    SkipWord(bssid, " ", r3);
    SkipWord(ssid, " ", r2);
  }

  /**
    A row of `airport -s` whose BSSID begins with a digit, as most do
    (`00:1a:...`): the SSID and those leading digits form a first pair, and only
    then come the RSSI and the channel.
   */
  lemma AirportRowDigitBssid(ssid: string, g: string, bssidTail: string, rssi: string, channel: string, tail: string)
    requires |ssid| > 0 && AllIn(ssid, NonSpace) && IsDigits(g)
    requires |bssidTail| > 0 && AllIn(bssidTail, NonSpace) && bssidTail[0] == ':'
    requires |rssi| > 0 && AllIn(rssi, NonSpace) && rssi[0] == '-'
    requires IsDigits(channel) && (tail == [] || !IsDigit(tail[0]))
    ensures FindAll(ssid + " " + g + bssidTail + " " + rssi + " " + channel + tail)
      == [Network(ssid, g), Network(rssi, channel)] + FindAll(tail)
  {
    var r2 := bssidTail + " " + rssi + " " + channel + tail;
    assert ssid + " " + g + bssidTail + " " + rssi + " " + channel + tail == ssid + " " + g + r2;
    assert AllIn(" ", Space);
    BssidRest(bssidTail, rssi, channel, tail);
    HeadRecord(ssid, " ", g, r2);
  }

  /** What follows the BSSID's leading digits: its `:`-led rest yields nothing, then the RSSI and the channel pair. */
  lemma BssidRest(bssidTail: string, rssi: string, channel: string, tail: string)
    requires AllIn(bssidTail, NonSpace)
    requires |rssi| > 0 && AllIn(rssi, NonSpace) && rssi[0] == '-'
    requires IsDigits(channel) && (tail == [] || !IsDigit(tail[0]))
    ensures FindAll(bssidTail + " " + rssi + " " + channel + tail) == [Network(rssi, channel)] + FindAll(tail)
  {
    var r3 := rssi + " " + channel + tail;
    assert bssidTail + " " + rssi + " " + channel + tail == bssidTail + " " + r3;
    assert AllIn(" ", Space);
    HeadRecord(rssi, " ", channel, tail);
    SkipWord(bssidTail, " ", r3);
  }

  /** The text after the first line break; empty when there is none. */
  function AfterFirstLine(s: string): (r: string)
    ensures |r| <= |s|
  {
    if s == [] then []
    else if s[0] == '\n' then s[1..]
    else AfterFirstLine(s[1..])
  }

  lemma {:induction false} AfterFirstLineOf(line: string, body: string)
    requires '\n' !in line
    ensures AfterFirstLine(line + "\n" + body) == body
  {
    if line != [] {
      assert (line + "\n" + body)[1..] == line[1..] + "\n" + body;
      AfterFirstLineOf(line[1..], body);
    }
  }

  /** The scan of a listing with its header line left out. */
  function FindAllRows(s: string): seq<Network> {
    FindAll(AfterFirstLine(s))
  }

  /** Without the header line, every listing of well-formed rows parses back to its rows. */
  lemma RowsRoundTrip(rows: seq<Network>)
    requires forall q :: 0 <= q < |rows| ==> WellFormed(rows[q])
    ensures FindAllRows(Listing(rows)) == rows
  {
    assert Header == "SSID SIGNAL" + "\n";
    AfterFirstLineOf("SSID SIGNAL", Render(rows));
    RenderRoundTrip(rows);
  }
}
