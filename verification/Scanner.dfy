/** What coro_buffer::get recognises.  The scanner counts how many leading delimiter characters it
    has just matched; on a mismatch it starts again from zero without looking at the offending
    character a second time. */
module Scanner {

  /** From count m, one character further; a completed delimiter ends the scan. */
  function Next(m: nat, x: char, d: string): (r: nat)
    requires m <= |d|
    ensures r <= |d| && r <= m + 1
  {
    if m == |d| then m else if x == d[m] then m + 1 else 0
  }

  /** The scanner's count after reading p; |d| once the delimiter is complete. */
  function State(p: string, d: string): (m: nat)
    requires d != ""
    ensures m <= |d| && m <= |p|
  {
    if p == "" then 0 else Next(State(p[..|p| - 1], d), p[|p| - 1], d)
  }

  /** get stops after the n-th character of s. */
  predicate StopsAt(s: string, d: string, n: nat)
    requires d != ""
  {
    0 < n <= |s| && State(s[..n], d) == |d| && State(s[..n - 1], d) < |d|
  }

  /** The delimiter is not completed anywhere in s. */
  predicate NoStop(s: string, d: string)
    requires d != ""
  {
    State(s, d) < |d|
  }

  lemma Prefix(s: string, m: nat, n: nat)
    requires n <= m <= |s|
    ensures s[..m][..n] == s[..n]
  {
  }

  lemma {:induction false} StaysComplete(s: string, d: string, m: nat, n: nat)
    requires d != "" && m <= n <= |s| && State(s[..m], d) == |d|
    ensures State(s[..n], d) == |d|
    decreases n
  {
    if m < n {
      StaysComplete(s, d, m, n - 1);
      Prefix(s, n, n - 1);
    }
  }

  /** The stopping point is unique. */
  lemma StopUnique(s: string, d: string, m: nat, n: nat)
    requires d != "" && StopsAt(s, d, m) && StopsAt(s, d, n)
    ensures m == n
  {
    if m < n { StaysComplete(s, d, m, n - 1); }
    if n < m { StaysComplete(s, d, n, m - 1); }
  }

  /** Only what precedes the stopping point matters. */
  lemma StopIsLocal(s: string, t: string, d: string, n: nat)
    requires d != "" && n <= |s| && n <= |t| && s[..n] == t[..n]
    ensures StopsAt(s, d, n) <==> StopsAt(t, d, n)
  {
    if n > 0 {
      Prefix(s, n, n - 1);
      Prefix(t, n, n - 1);
    }
  }

  /** The result of one get on a stream: the text delivered, whether it ended by end of stream,
      and what is left. */
  datatype Line = Line(text: string, closed: bool, rest: string)

  function StopPoint(s: string, d: string): (n: nat)
    requires d != ""
    ensures n <= |s| && (n > 0 ==> StopsAt(s, d, n)) && (n == 0 ==> NoStop(s, d))
    decreases |s|
  {
    if s == "" then 0
    else
      var n := StopPoint(s[..|s| - 1], d);
      if n > 0 then
        StopIsLocal(s, s[..|s| - 1], d, n);
        n
      else if State(s, d) == |d| then
        assert s[..|s|] == s;
        |s|
      else 0
  }

  function GetLine(s: string, d: string): Line
    requires d != ""
  {
    var n := StopPoint(s, d);
    if n == 0 then Line(s, true, "") else Line(s[..n], false, s[n..])
  }

  /** GetLine is what any scan that stops (or does not) must deliver. */
  lemma GetLineIs(s: string, d: string, n: nat)
    requires d != ""
    ensures StopsAt(s, d, n) ==> GetLine(s, d) == Line(s[..n], false, s[n..])
    ensures NoStop(s, d) ==> GetLine(s, d) == Line(s, true, "")
  {
    var k := StopPoint(s, d);
    assert s[..|s|] == s;
    if k > 0 {
      if StopsAt(s, d, n) { StopUnique(s, d, k, n); }
      StaysComplete(s, d, k, |s|);
    } else if StopsAt(s, d, n) {
      StaysComplete(s, d, n, |s|);
    }
  }

  lemma GetLineConserves(s: string, d: string)
    requires d != ""
    ensures GetLine(s, d).text + GetLine(s, d).rest == s
  {
  }

  /** The scanner's count after one more character. */
  lemma StateNext(p: string, x: char, d: string)
    requires d != ""
    ensures State(p + [x], d) == Next(State(p, d), x, d)
  {
  }

  /** The same, when it is the character x that completes the delimiter. */
  lemma GetLineSplits(p: string, x: char, rest: string, d: string)
    requires d != "" && State(p, d) < |d| == State(p + [x], d)
    ensures GetLine(p + [x] + rest, d) == Line(p + [x], false, rest)
  {
    var s := p + [x] + rest;
    assert s[..|p| + 1] == p + [x] && s[..|p|] == p && s[|p| + 1..] == rest;
    GetLineIs(s, d, |p| + 1);
  }

  // ---------------------------------------------------------------- the language recognised

  /** An abandoned attempt: a proper prefix d[..k] of the delimiter, then a character that does
      not continue it. */
  predicate Attempt(t: string, d: string) {
    0 < |t| <= |d| && t[..|t| - 1] == d[..|t| - 1] && t[|t| - 1] != d[|t| - 1]
  }

  /** A sequence of abandoned attempts. */
  ghost predicate Attempts(s: string, d: string)
    decreases |s|
  {
    s == "" || exists i: nat :: i < |s| && Attempt(s[i..], d) && Attempts(s[..i], d)
  }

  /** How a positive count comes about. */
  lemma NextIs(k: nat, x: char, d: string, m: nat)
    requires k <= |d| && 0 < m <= |d|
    ensures Next(k, x, d) == m && k < |d| <==> k == m - 1 && x == d[m - 1]
  {
  }

  /** s ends with the first m characters of d. */
  predicate EndsWith(s: string, d: string, m: nat)
    requires m <= |d|
  {
    m <= |s| && s[|s| - m..] == d[..m]
  }

  lemma EndsWithNext(s: string, d: string, m: nat)
    requires s != "" && 0 < m <= |d|
    ensures EndsWith(s, d, m) <==> EndsWith(s[..|s| - 1], d, m - 1) && s[|s| - 1] == d[m - 1]
    ensures EndsWith(s, d, m) ==> s[..|s| - 1][..|s| - m] == s[..|s| - m]
  {
    if m <= |s| {
      assert s[|s| - m..] == s[..|s| - 1][|s| - m..] + [s[|s| - 1]];
      assert d[..m] == d[..m - 1] + [d[m - 1]];
    }
  }

  /** The count is m exactly when the text ends with d[..m], begun at count zero. */
  lemma {:induction false} CountMeans(s: string, d: string, m: nat)
    requires d != "" && m < |d|
    ensures State(s, d) == m <==> EndsWith(s, d, m) && State(s[..|s| - m], d) == 0
    decreases |s|
  {
    if s == "" {
    } else if m > 0 {
      var p := s[..|s| - 1];
      CountMeans(p, d, m - 1);
      NextIs(State(p, d), s[|s| - 1], d, m);
      EndsWithNext(s, d, m);
    } else {
      assert s[..|s|] == s;
    }
  }

  /** ... and zero exactly after abandoned attempts. */
  lemma {:induction false} AttemptsMeans(s: string, d: string)
    requires d != ""
    ensures State(s, d) == 0 <==> Attempts(s, d)
    decreases |s|
  {
    if s == "" {
    } else if State(s, d) == 0 {
      var i := ZeroPoint(s, d);
      AttemptsMeans(s[..i], d);
      assert Attempt(s[i..], d);
    } else if Attempts(s, d) {
      var i := LastAttempt(s, d);
      AttemptsMeans(s[..i], d);
      AttemptIsZero(s, d, i);
    }
  }

  ghost function LastAttempt(s: string, d: string): (i: nat)
    requires s != "" && Attempts(s, d)
    ensures i < |s| && Attempt(s[i..], d) && Attempts(s[..i], d)
  {
    var i: nat :| i < |s| && Attempt(s[i..], d) && Attempts(s[..i], d);
    i
  }

  /** A mismatch ends an attempt that began at count zero. */
  lemma ZeroPoint(s: string, d: string) returns (i: nat)
    requires d != "" && s != "" && State(s, d) == 0
    ensures i < |s| && Attempt(s[i..], d) && State(s[..i], d) == 0
  {
    var p := s[..|s| - 1];
    var k := State(p, d);
    CountMeans(p, d, k);
    i := |p| - k;
    assert s[i..] == p[i..] + [s[|s| - 1]] && s[..i] == p[..i];
  }

  lemma AttemptIsZero(s: string, d: string, i: nat)
    requires d != "" && i < |s| && Attempt(s[i..], d) && State(s[..i], d) == 0
    ensures State(s, d) == 0
  {
    var p := s[..|s| - 1];
    var k := |p| - i;
    assert p[i..] == s[i..][..k] && p[..|p| - k] == s[..i];
    CountMeans(p, d, k);
  }

  /** The count reaches |d| exactly with the last character of a d begun at count zero; p is t
      without its last character and u without its last |d|. */
  lemma CompletesMeans(t: string, p: string, u: string, d: string)
    requires d != "" && t != "" && p == t[..|t| - 1] && (|d| <= |t| ==> u == t[..|t| - |d|])
    ensures State(t, d) == |d| && State(p, d) < |d| <==> EndsWith(t, d, |d|) && State(u, d) == 0
  {
    CountMeans(p, d, |d| - 1);
    NextIs(State(p, d), t[|t| - 1], d, |d|);
    EndsWithNext(t, d, |d|);
  }

  lemma StopMeans(s: string, d: string, n: nat)
    requires d != "" && n <= |s|
    ensures StopsAt(s, d, n) <==> EndsWith(s[..n], d, |d|) && State(s[..n - |d|], d) == 0
  {
    hide State;
    if n > 0 {
      Prefix(s, n, n - 1);
      if |d| <= n {
        Prefix(s, n, n - |d|);
        CompletesMeans(s[..n], s[..n - 1], s[..n - |d|], d);
      } else {
        CompletesMeans(s[..n], s[..n - 1], "", d);
      }
    }
  }

  /** The exact language: get stops after n characters precisely when those are a sequence of
      abandoned attempts followed by the delimiter. */
  lemma StopsExactlyAfterAttempts(s: string, d: string, n: nat)
    requires d != "" && n <= |s|
    ensures StopsAt(s, d, n) <==> EndsWith(s[..n], d, |d|) && Attempts(s[..n - |d|], d)
  {
    StopMeans(s, d, n);
    if |d| <= n { AttemptsMeans(s[..n - |d|], d); }
  }

  predicate Occurs(s: string, d: string, i: nat) {
    i + |d| <= |s| && s[i..i + |d|] == d
  }

  lemma OccursEndsWith(s: string, d: string, i: nat)
    requires i + |d| <= |s|
    ensures Occurs(s, d, i) <==> EndsWith(s[..i + |d|], d, |d|)
  {
  }

  /** The first place at which the delimiter occurs. */
  predicate FirstOccurrence(s: string, d: string, i: nat) {
    Occurs(s, d, i) && forall j: nat :: j < i ==> !Occurs(s, d, j)
  }

  /** get is meant to stop at the first occurrence of the delimiter.  It does so exactly when what
      precedes that occurrence consists of abandoned attempts, i.e. no attempt under way swallows
      its first character. */
  lemma StopsAtFirstOccurrenceIff(s: string, d: string, i: nat)
    requires d != "" && FirstOccurrence(s, d, i)
    ensures StopsAt(s, d, i + |d|) <==> Attempts(s[..i], d)
  {
    StopMeans(s, d, i + |d|);
    OccursEndsWith(s, d, i);
    AttemptsMeans(s[..i], d);
  }

  /** It never stops anywhere but at an occurrence. */
  lemma StopsAtAnOccurrence(s: string, d: string, n: nat, i: nat)
    requires d != "" && StopsAt(s, d, n) && FirstOccurrence(s, d, i)
    ensures i + |d| <= n && Occurs(s, d, n - |d|)
  {
    StopMeans(s, d, n);
    OccursEndsWith(s, d, n - |d|);
  }

  // ---------------------------------------------------------------- the default delimiter

  const CRLF := "\r\n"

  /** The length of the run of CRs at the end of p. */
  function CrRun(p: string): (n: nat)
    ensures n <= |p|
  {
    if p != "" && p[|p| - 1] == '\r' then 1 + CrRun(p[..|p| - 1]) else 0
  }

  /** The n-th character is an LF after a run of CRs of odd length. */
  predicate OddLf(s: string, n: nat) {
    0 < n <= |s| && s[n - 1] == '\n' && CrRun(s[..n - 1]) % 2 == 1
  }

  lemma OddLfInPrefix(s: string, m: nat, n: nat)
    requires n <= m <= |s|
    ensures OddLf(s[..m], n) <==> OddLf(s, n)
  {
    if n > 0 { Prefix(s, m, n - 1); }
  }

  lemma {:induction false} CrlfCount(s: string)
    requires forall n: nat :: n <= |s| ==> !OddLf(s, n)
    ensures State(s, CRLF) == CrRun(s) % 2
    decreases |s|
  {
    if s != "" {
      var p := s[..|s| - 1];
      forall n: nat | n <= |p| ensures !OddLf(p, n) { OddLfInPrefix(s, |p|, n); }
      CrlfCount(p);
      assert !OddLf(s, |s|);
    }
  }

  /** With the default delimiter get stops precisely at the first LF preceded by a run of CRs of
      odd length, counted from the start of the call. */
  lemma CrlfStopsAtFirstOddLf(s: string, n: nat)
    requires n <= |s|
    ensures StopsAt(s, CRLF, n) <==> OddLf(s, n) && forall k: nat :: k < n ==> !OddLf(s, k)
  {
    if n > 0 {
      if k: nat :| k < n && OddLf(s, k) {
        var j := FirstOddLf(s, k);
        CrlfStep(s, j);
        StaysComplete(s, CRLF, j, n - 1);
      } else {
        CrlfStep(s, n);
      }
    }
  }

  lemma {:induction false} FirstOddLf(s: string, k: nat) returns (j: nat)
    requires OddLf(s, k)
    ensures j <= k && OddLf(s, j) && forall i: nat :: i < j ==> !OddLf(s, i)
  {
    if i: nat :| i < k && OddLf(s, i) {
      j := FirstOddLf(s, i);
    } else {
      j := k;
    }
  }

  lemma CrlfStep(s: string, n: nat)
    requires 0 < n <= |s| && forall k: nat :: k < n ==> !OddLf(s, k)
    ensures StopsAt(s, CRLF, n) <==> OddLf(s, n)
  {
    var p := s[..n - 1];
    forall k: nat | k <= |p| ensures !OddLf(p, k) { OddLfInPrefix(s, n - 1, k); }
    CrlfCount(p);
    Prefix(s, n, n - 1);
  }

  /** An LF after CRs completes a CR LF. */
  lemma OddLfIsAPair(s: string, k: nat)
    ensures OddLf(s, k) ==> 2 <= k && Occurs(s, CRLF, k - 2)
  {
  }

  /** The intent is to stop at the first CR LF; it is met exactly when the CRs directly before that
      pair are even in number, and so always on input without CR CR. */
  lemma CrlfStopsAtFirstPairIff(s: string, i: nat)
    requires FirstOccurrence(s, CRLF, i)
    ensures StopsAt(s, CRLF, i + 2) <==> CrRun(s[..i]) % 2 == 0
  {
    forall k: nat | k < i + 2 ensures !OddLf(s, k) { OddLfIsAPair(s, k); }
    CrlfStep(s, i + 2);
    assert s[i] == CRLF[0] == '\r' && s[i + 1] == CRLF[1] == '\n' by {
      assert s[i..i + 2][0] == s[i] && s[i..i + 2][1] == s[i + 1];
    }
    assert s[..i + 1][..i] == s[..i];
  }

  lemma NoDoubleCrStopsAtFirstPair(s: string, i: nat)
    requires FirstOccurrence(s, CRLF, i)
    requires forall j: nat :: j + 1 < |s| ==> !(s[j] == s[j + 1] == '\r')
    ensures StopsAt(s, CRLF, i + 2)
  {
    CrlfStopsAtFirstPairIff(s, i);
    assert s[i..i + 2][0] == s[i];
    if i > 0 { assert s[..i][i - 1] == s[i - 1]; }
  }

  // ---------------------------------------------------------------- where the intent fails

  /** The scanner's next count. */
  lemma NextCount(s: string, d: string, k: nat)
    requires d != "" && k < |s|
    ensures State(s[..k + 1], d) == Next(State(s[..k], d), s[k], d)
  {
    Prefix(s, k + 1, k);
  }

  /** CR CR LF is not recognised as the end of a line. */
  lemma DoubledCrIsMissed()
    ensures FirstOccurrence("\r\r\n", CRLF, 1) && NoStop("\r\r\n", CRLF)
  {
    var s := "\r\r\n";
    assert s[1..3] == CRLF && s[0..2] == "\r\r";
    NextCount(s, CRLF, 0);
    NextCount(s, CRLF, 1);
    NextCount(s, CRLF, 2);
    assert s[..3] == s;
  }

  const END_OF_DATA := "\r\n.\r\n"

  /** A message body that ends with a blank line hides the end-of-data mark from the scanner. */
  lemma BlankLineHidesEndOfData()
    ensures FirstOccurrence("\r\n\r\n.\r\n", END_OF_DATA, 2) && NoStop("\r\n\r\n.\r\n", END_OF_DATA)
  {
    var s, d := "\r\n\r\n.\r\n", END_OF_DATA;
    assert s[2..7] == d;
    assert !Occurs(s, d, 0) by { assert s[0..5][2] != d[2]; }
    assert !Occurs(s, d, 1) by { assert s[1..6][0] != d[0]; }
    assert State(s[..1], d) == 1 by { NextCount(s, d, 0); assert s[..0] == ""; }
    assert State(s[..2], d) == 2 by { NextCount(s, d, 1); }
    assert State(s[..3], d) == 0 by { NextCount(s, d, 2); }
    assert State(s[..4], d) == 0 by { NextCount(s, d, 3); }
    assert State(s[..5], d) == 0 by { NextCount(s, d, 4); }
    assert State(s[..6], d) == 1 by { NextCount(s, d, 5); }
    assert State(s[..7], d) == 2 by { NextCount(s, d, 6); }
    assert s[..7] == s;
  }

  // ---------------------------------------------------------------- framed records

  /** A record that avoids the delimiter's first character is delivered whole, with its delimiter,
      whatever follows. */
  lemma {:induction false} NeverBegun(r: string, d: string)
    requires d != "" && d[0] !in r
    ensures State(r, d) == 0
  {
    if r != "" {
      NeverBegun(r[..|r| - 1], d);
    }
  }

  lemma {:induction false} Matching(r: string, d: string, m: nat)
    requires d != "" && State(r, d) == 0 && m <= |d|
    ensures State(r + d[..m], d) == m
  {
    if m == 0 {
      assert r + d[..0] == r;
    } else {
      Matching(r, d, m - 1);
      assert (r + d[..m])[..|r| + m - 1] == r + d[..m - 1];
    }
  }

  lemma RecordIsDelivered(r: string, d: string, tail: string)
    requires d != "" && d[0] !in r
    ensures GetLine(r + d + tail, d) == Line(r + d, false, tail)
  {
    var s, n := r + d + tail, |r| + |d|;
    NeverBegun(r, d);
    Matching(r, d, |d|);
    Matching(r, d, |d| - 1);
    assert s[..n] == r + d == r + d[..|d|] && s[..n - 1] == r + d[..|d| - 1] && s[n..] == tail;
    GetLineIs(s, d, n);
  }

  function Frame(records: seq<string>, d: string): string {
    if records == [] then "" else records[0] + d + Frame(records[1..], d)
  }

  /** The results of k successive gets, each on what the one before left. */
  function GetLines(s: string, d: string, k: nat): (ls: seq<Line>)
    requires d != ""
    ensures |ls| == k
    decreases k
  {
    if k == 0 then [] else [GetLine(s, d)] + GetLines(GetLine(s, d).rest, d, k - 1)
  }

  /** Round trip: framing any records that avoid the delimiter's first character and reading them
      back delivers record + delimiter, one per call and in order, and then reports the end of the
      stream with an empty string. */
  lemma {:induction false} RoundTrip(records: seq<string>, d: string)
    requires d != "" && forall r <- records :: d[0] !in r
    ensures var ls := GetLines(Frame(records, d), d, |records| + 1);
      && (forall i :: 0 <= i < |records| ==> ls[i].text == records[i] + d && !ls[i].closed)
      && ls[|records|].text == "" && ls[|records|].closed
  {
    hide State, GetLine, StopPoint;
    if records == [] {
      GetLineIs("", d, 0);
    } else {
      var tail := Frame(records[1..], d);
      RecordIsDelivered(records[0], d, tail);
      RoundTrip(records[1..], d);
      var ls := GetLines(Frame(records, d), d, |records| + 1);
      assert ls[1..] == GetLines(tail, d, |records|);
      forall i | 0 <= i < |records| ensures ls[i].text == records[i] + d && !ls[i].closed {
        if i > 0 { assert ls[i] == ls[1..][i - 1] && records[i] == records[1..][i - 1]; }
      }
      assert ls[|records|] == ls[1..][|records| - 1];
    }
  }

  // ---------------------------------------------------------------- messages and the end-of-data mark

  /** The number of blank lines at the end of a message. */
  function Blanks(lines: seq<string>): (n: nat)
    ensures n <= |lines|
  {
    if lines != [] && lines[|lines| - 1] == "" then 1 + Blanks(lines[..|lines| - 1]) else 0
  }

  /** Lines without CR inside; none but the first may be a lone dot, which would end the message. */
  predicate IsMessage(lines: seq<string>) {
    && (forall l <- lines :: '\r' !in l)
    && forall k | 0 < k < |lines| :: lines[k] != "."
  }

  /** An even number of blank lines at the end; an odd one if there are no other lines. */
  predicate EndIsSeen(lines: seq<string>) {
    Blanks(lines) % 2 == if Blanks(lines) == |lines| then 1 else 0
  }

  lemma {:induction false} FrameNext(lines: seq<string>, l: string, d: string)
    ensures Frame(lines + [l], d) == Frame(lines, d) + l + d
  {
    if lines != [] {
      FrameNext(lines[1..], l, d);
      assert (lines + [l])[1..] == lines[1..] + [l];
    } else {
      assert [l][1..] == [];
    }
  }

  /** Away from a CR the count stays at zero. */
  lemma {:induction false} PlainText(p: string, l: string)
    requires State(p, END_OF_DATA) == 0 && '\r' !in l
    ensures State(p + l, END_OF_DATA) == 0
    decreases |l|
  {
    if l == "" {
      assert p + l == p;
    } else {
      var n := |l| - 1;
      PlainText(p, l[..n]);
      StateNext(p + l[..n], l[n], END_OF_DATA);
      assert p + l == p + l[..n] + [l[n]];
    }
  }

  /** The text of a line that is neither blank nor, after another line, a lone dot. */
  lemma LineText(p: string, l: string)
    requires State(p, END_OF_DATA) == 0 || State(p, END_OF_DATA) == 2
    requires '\r' !in l && l != "" && (l == "." ==> State(p, END_OF_DATA) == 0)
    ensures State(p + l, END_OF_DATA) == 0
  {
    StateNext(p, l[0], END_OF_DATA);
    if State(p + [l[0]], END_OF_DATA) == 0 {
      PlainText(p + [l[0]], l[1..]);
      assert p + l == p + [l[0]] + l[1..];
    } else {
      StateNext(p + [l[0]], l[1], END_OF_DATA);
      PlainText(p + [l[0]] + [l[1]], l[2..]);
      assert p + l == p + [l[0]] + [l[1]] + l[2..];
    }
  }

  lemma LineEnd(p: string)
    ensures State(p, END_OF_DATA) == 0 ==> State(p + CRLF, END_OF_DATA) == 2
    ensures State(p, END_OF_DATA) == 2 ==> State(p + CRLF, END_OF_DATA) == 0
  {
    StateNext(p, '\r', END_OF_DATA);
    StateNext(p + ['\r'], '\n', END_OF_DATA);
    assert p + CRLF == p + ['\r'] + ['\n'];
  }

  lemma {:induction false} AfterLines(lines: seq<string>)
    requires IsMessage(lines)
    ensures State(Frame(lines, CRLF), END_OF_DATA) == if EndIsSeen(lines) then 2 else 0
    decreases |lines|
  {
    if lines != [] {
      hide State;
      var init, l := lines[..|lines| - 1], lines[|lines| - 1];
      assert lines == init + [l];
      AfterLines(init);
      FrameNext(init, l, CRLF);
      var p := Frame(init, CRLF);
      if l == "" {
        assert p + l == p;
        LineEnd(p);
      } else {
        LineText(p, l);
        LineEnd(p + l);
      }
    }
  }

  lemma LoneDot(p: string)
    requires State(p, END_OF_DATA) == 0 || State(p, END_OF_DATA) == 2
    ensures var q := p + "." + CRLF;
      if State(p, END_OF_DATA) == 2 then StopsAt(q, END_OF_DATA, |q|) else NoStop(q, END_OF_DATA)
  {
    StateNext(p, '.', END_OF_DATA);
    StateNext(p + ['.'], '\r', END_OF_DATA);
    StateNext(p + ['.'] + ['\r'], '\n', END_OF_DATA);
    var q := p + "." + CRLF;
    assert q == p + ['.'] + ['\r'] + ['\n'];
    assert q[..|q|] == q && q[..|q| - 1] == p + ['.'] + ['\r'];
  }

  /** A client can tell beforehand whether the end of its message will be noticed: exactly when the
      blank lines it ends with are even in number (odd, if it has no other lines).  Otherwise, so
      for the empty message too, the reader goes on past the mark. */
  lemma EndOfDataIsSeenIff(lines: seq<string>, rest: string)
    requires (forall l <- lines :: '\r' !in l) && forall k | 0 < k < |lines| :: lines[k] != "."
    ensures var message := Frame(lines, CRLF) + "." + CRLF;
      if EndIsSeen(lines) then GetLine(message + rest, END_OF_DATA) == Line(message, false, rest)
      else NoStop(message, END_OF_DATA) && !StopsAt(message + rest, END_OF_DATA, |message|)
  {
    hide State, GetLine, EndIsSeen;
    var message := Frame(lines, CRLF) + "." + CRLF;
    var s := message + rest;
    AfterLines(lines);
    LoneDot(Frame(lines, CRLF));
    assert s[..|message|] == message == message[..|message|] && s[|message|..] == rest;
    StopIsLocal(message, s, END_OF_DATA, |message|);
    GetLineIs(s, END_OF_DATA, |message|);
  }
}
