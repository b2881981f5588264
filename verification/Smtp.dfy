/** The demonstration SMTP server: one session is a loop around coro_buffer::get. */
module Smtp {
  import opened Options
  import opened Scanner
  import opened Buffer

  const SIZE_MAX := 0x1_0000_0000_0000_0000   // size_type is 64 bits wide
  const MAX_STRING := 0x7fff_ffff_ffff_ffff   // no std::string is longer

  // ---------------------------------------------------------------- string searches

  function FindFirstOf(s: string, delims: string): (r: Option<nat>)
    ensures match r
      case Some(i) => i < |s| && s[i] in delims && forall j | 0 <= j < i :: s[j] !in delims
      case None => forall j | 0 <= j < |s| :: s[j] !in delims
  {
    if s == "" then None
    else if s[0] in delims then Some(0)
    else match FindFirstOf(s[1..], delims)
      case Some(i) =>
        assert forall j | 0 < j < i + 1 :: s[j] == s[1..][j - 1];
        Some(i + 1)
      case None =>
        assert forall j | 0 < j < |s| :: s[j] == s[1..][j - 1];
        None
  }

  function FindLastOf(s: string, delims: string): (r: Option<nat>)
    ensures match r
      case Some(i) => i < |s| && s[i] in delims && forall j | i < j < |s| :: s[j] !in delims
      case None => forall j | 0 <= j < |s| :: s[j] !in delims
  {
    if s == "" then None
    else if s[|s| - 1] in delims then Some(|s| - 1)
    else match FindLastOf(s[..|s| - 1], delims)
      case Some(i) => Some(i)
      case None => None
  }

  /** std::string::substr: the length is clipped. */
  function Substr(s: string, pos: nat, len: nat): string
    requires pos <= |s|
  {
    if len < |s| - pos then s[pos..pos + len] else s[pos..]
  }

  /** Unsigned subtraction wraps around. */
  function Minus(a: int, b: int): nat {
    (a - b) % SIZE_MAX
  }

  lemma MinusIs(a: int, b: int)
    requires -SIZE_MAX <= a - b < SIZE_MAX
    ensures Minus(a, b) == if a >= b then a - b else a - b + SIZE_MAX
  {
  }

  /** split_first: the text before the first delimiter, or nothing. */
  function SplitFirst(source: string, delims: string): string {
    match FindFirstOf(source, delims)
    case None => ""
    case Some(i) => Substr(source, 0, i)
  }

  datatype Found = Found(addr: Option<string>, size: nat)

  /** find_email_addr: the address it stores, if it stores one, and the number it returns. */
  function FindEmailAddr(line: string): Found
  {
    var i, j := FindFirstOf(line, "<"), FindLastOf(line, ">");
    if i.None? || j.None? then Found(None, 0)
    else Found(Some(Substr(line, i.value + 1, Minus(j.value, 1))), Minus(Minus(j.value, i.value), 2))
  }

  /** A line counts as holding an address exactly when it has both brackets and the last ">" is
      not two places after the first "<": the empty address passes and a one-letter one does not. */
  lemma AddressAcceptedIff(line: string)
    requires |line| <= MAX_STRING
    ensures var i, j := FindFirstOf(line, "<"), FindLastOf(line, ">");
      && (FindEmailAddr(line).size > 0 <==> i.Some? && j.Some? && j.value != i.value + 2)
      && (FindEmailAddr(line).addr.Some? <==> i.Some? && j.Some?)
  {
    var i, j := FindFirstOf(line, "<"), FindLastOf(line, ">");
    if i.Some? && j.Some? {
      MinusIs(j.value, i.value);
      MinusIs(Minus(j.value, i.value), 2);
    }
  }

  lemma SubstrIs(s: string, i: nat, end: nat)
    requires i < |s| <= MAX_STRING && end < |s|
    ensures Substr(s, i + 1, Minus(end, 1)) ==
            if end == 0 || i + end >= |s| then s[i + 1..] else s[i + 1..i + end]
  {
    MinusIs(end, 1);
  }

  /** What is stored: from behind the first "<", as many characters, less one, as there are before
      the last ">"; up to the end if there are not so many, or if the line begins with the ">". */
  lemma AddressStored(line: string, i: nat, j: nat)
    requires |line| <= MAX_STRING
    requires FindFirstOf(line, "<") == Some(i) && FindLastOf(line, ">") == Some(j)
    ensures FindEmailAddr(line).addr ==
            Some(if j == 0 || i + j >= |line| then line[i + 1..] else line[i + 1..i + j])
  {
    hide FindFirstOf, FindLastOf, Substr, Minus;
    SubstrIs(line, i, j);
  }

  /** With an address in brackets, what is stored is the text between them exactly when the "<" is
      the first character of the line; after a command word it runs on past the ">". */
  lemma AddressIsBracketedTextIff(line: string, i: nat, j: nat)
    requires |line| <= MAX_STRING && i < j
    requires FindFirstOf(line, "<") == Some(i) && FindLastOf(line, ">") == Some(j)
    ensures FindEmailAddr(line).addr == Some(line[i + 1..j]) <==> i == 0
  {
    MinusIs(j, 1);
    SubstrLength(line, i + 1, j - 1);
  }

  lemma SubstrLength(s: string, pos: nat, len: nat)
    requires pos <= |s|
    ensures |Substr(s, pos, len)| == if len < |s| - pos then len else |s| - pos
  {
  }

  lemma BracketsAt(s: string, i: nat, j: nat)
    requires i < |s| && s[i] == '<' && forall k | 0 <= k < i :: s[k] != '<'
    requires j < |s| && s[j] == '>' && forall k | j < k < |s| :: s[k] != '>'
    ensures FindFirstOf(s, "<") == Some(i) && FindLastOf(s, ">") == Some(j)
  {
    hide FindFirstOf, FindLastOf;
    assert forall c | c in "<" :: c == '<';
    assert forall c | c in ">" :: c == '>';
    assert "<"[0] == '<' && ">"[0] == '>';
  }

  /** A command with a one-letter address is refused although its text is stored, up to the end of
      the line. */
  lemma OneLetterIsRefused()
    ensures FindEmailAddr("MAIL FROM:<a>\r\n") == Found(Some("a>\r\n"), 0)
  {
    hide FindFirstOf, FindLastOf;
    var s := "MAIL FROM:<a>\r\n";
    assert s[..10] == "MAIL FROM:" && s[13..] == "\r\n" && s[11..] == "a>\r\n";
    BracketsAt(s, 10, 12);
  }

  /** One with an empty address is accepted: the number returned wraps around. */
  lemma EmptyIsAccepted()
    ensures FindEmailAddr("MAIL FROM:<>\r\n").size == SIZE_MAX - 1
  {
    hide FindFirstOf, FindLastOf;
    var s := "MAIL FROM:<>\r\n";
    assert s[..10] == "MAIL FROM:" && s[12..] == "\r\n";
    BracketsAt(s, 10, 11);
  }

  function ToLower(s: string): (r: string)
    ensures |r| == |s|
  {
    if s == "" then ""
    else [if 'A' <= s[0] <= 'Z' then ((s[0] as int) + 32) as char else s[0]] + ToLower(s[1..])
  }

  // ---------------------------------------------------------------- the session

  const DELIMS := " \t\r\n"

  /** What a session remembers between commands, and what is left of the client's bytes. */
  datatype Dialogue = Dialogue(envFrom: string, rest: string, closed: bool)

  /** What one command other than DATA does. */
  datatype Response = Response(reply: string, envFrom: string, quit: bool)

  function Command(line: string): string {
    ToLower(SplitFirst(line, DELIMS))
  }

  function Respond(hostname: string, envFrom: string, command: string, line: string): Response
  {
    if command == "quit" then Response("221 bye.", envFrom, true)
    else if command == "rcpt" then
      if |envFrom| > 0 then
        Response(if FindEmailAddr(line).size > 0 then "250 Ok" else "501 Syntax Error", envFrom, false)
      else Response("503 send MAIL command first", envFrom, false)
    else if command == "helo" then Response("250 " + hostname, envFrom, false)
    else if command == "ehlo" then Response("250-" + hostname + "\r\n250-PIPELINING\r\n250 8BITMIME", envFrom, false)
    else if command == "mail" then
      var found := FindEmailAddr(line);
      Response(if found.size > 0 then "250 Ok" else "501 Syntax Error",
               if found.addr.Some? then found.addr.value else envFrom, false)
    else if command == "rset" then Response("250 Ok", "", false)
    else Response("502 command not implemented", envFrom, false)
  }

  datatype Turn = Turn(replies: seq<string>, next: Dialogue)

  /** One iteration of go: read a line, and answer it; DATA reads on to the end-of-data mark. */
  function Answer(hostname: string, s: Dialogue): Turn
  {
    var got := GetLine(s.rest, CRLF);
    var command := Command(got.text);
    if command == "data" then
      Turn(["354 Ok", "250 Ok"], Dialogue("", GetLine(got.rest, END_OF_DATA).rest, false))
    else
      var r := Respond(hostname, s.envFrom, command, got.text);
      Turn([r.reply], Dialogue(r.envFrom, got.rest, r.quit))
  }

  /** n rounds of a session whose single round is f; fewer once it is closed. */
  function Iterate(f: Dialogue -> Turn, s: Dialogue, n: nat): Turn
    decreases n
  {
    if n == 0 || s.closed then Turn([], s)
    else
      var more := Iterate(f, f(s).next, n - 1);
      Turn(f(s).replies + more.replies, more.next)
  }

  function Rounds(hostname: string): Dialogue -> Turn {
    s => Answer(hostname, s)
  }

  /** The replies of the first n iterations (fewer after QUIT), and the state after them. */
  function Transcript(hostname: string, s: Dialogue, n: nat): Turn {
    Iterate(Rounds(hostname), s, n)
  }

  function After(sent: seq<string>, t: Turn): Turn {
    t.(replies := sent + t.replies)
  }

  class Session {
    const hostname: string
    const b: CoroBuffer
    var envFrom: string
    var rcpts: seq<string>
    var closed: bool
    var sent: seq<string>              // each reply is followed by CR LF on the wire

    constructor (hostname: string, b: CoroBuffer)
      ensures this.hostname == hostname && this.b == b && envFrom == "" && !closed && sent == []
    {
      this.hostname, this.b, envFrom, rcpts, closed, sent := hostname, b, "", [], false, [];
    }

    ghost function View(): Dialogue
      reads this, b, b.f
    {
      Dialogue(envFrom, b.Remaining(), closed)
    }

    method SendReply(c: string)
      modifies this`sent
      ensures sent == old(sent) + [c]
    {
      sent := sent + [c];
    }

    method OtherCommand(command: string, line: string)
      requires !closed
      modifies this
      ensures var r := Respond(hostname, old(envFrom), command, line);
        sent == old(sent) + [r.reply] && envFrom == r.envFrom && closed == r.quit
      ensures closed <==> command == "quit"
      ensures command == "quit" ==> sent == old(sent) + ["221 bye."]
      ensures command == "rcpt" && old(envFrom) == "" ==> sent == old(sent) + ["503 send MAIL command first"]
      ensures command == "mail" || (command == "rcpt" && old(envFrom) != "") ==> |line| <= MAX_STRING ==>
        var i, j := FindFirstOf(line, "<"), FindLastOf(line, ">");
        sent == old(sent) + [if i.Some? && j.Some? && j.value != i.value + 2 then "250 Ok" else "501 Syntax Error"]
      ensures command == "helo" ==> sent == old(sent) + ["250 " + hostname]
      ensures command == "ehlo" ==> sent == old(sent) + ["250-" + hostname + "\r\n250-PIPELINING\r\n250 8BITMIME"]
      ensures command == "rset" ==> sent == old(sent) + ["250 Ok"] && envFrom == ""
      ensures command !in {"quit", "rcpt", "mail", "helo", "ehlo", "rset"} ==>
        sent == old(sent) + ["502 command not implemented"]
      ensures command != "mail" && command != "rset" ==> envFrom == old(envFrom)
      ensures command == "mail" && |line| <= MAX_STRING ==>
        var i, j := FindFirstOf(line, "<"), FindLastOf(line, ">");
        if i.None? || j.None? then envFrom == old(envFrom)
        else envFrom == if j.value == 0 || i.value + j.value >= |line| then line[i.value + 1..]
                        else line[i.value + 1..i.value + j.value]
    {
      hide FindEmailAddr, FindFirstOf, FindLastOf;
      if |line| <= MAX_STRING {
        AddressAcceptedIff(line);
        var i, j := FindFirstOf(line, "<"), FindLastOf(line, ">");
        if i.Some? && j.Some? { AddressStored(line, i.value, j.value); }
      }
      if command == "quit" {
        SendReply("221 bye.");
        closed := true;
      } else if command == "rcpt" {
        if |envFrom| > 0 {
          if FindEmailAddr(line).size > 0 {
            SendReply("250 Ok");
          } else {
            SendReply("501 Syntax Error");
          }
        } else {
          SendReply("503 send MAIL command first");
        }
      } else if command == "helo" {
        SendReply("250 " + hostname);
      } else if command == "ehlo" {
        SendReply("250-" + hostname + "\r\n250-PIPELINING\r\n250 8BITMIME");
      } else if command == "mail" {
        var found := FindEmailAddr(line);
        if found.addr.Some? {
          envFrom := found.addr.value;
        }
        if found.size > 0 {
          SendReply("250 Ok");
        } else {
          SendReply("501 Syntax Error");
        }
      } else if command == "rset" {
        envFrom := "";
        rcpts := [];
        SendReply("250 Ok");
      } else {
        SendReply("502 command not implemented");
      }
    }

    method DataCommand()
      requires !closed
      modifies this, b, b.f
      ensures sent == old(sent) + ["354 Ok", "250 Ok"]
      ensures View() == Dialogue("", GetLine(old(b.Remaining()), END_OF_DATA).rest, false)
    {
      SendReply("354 Ok");
      var _, _ := b.GetParts([], END_OF_DATA);
      envFrom := "";
      rcpts := [];
      SendReply("250 Ok");
    }

    /** The body of go's loop. */
    method Round()
      requires !closed
      modifies this, b, b.f
      ensures Turn(sent, View()) == After(old(sent), Rounds(hostname)(old(View())))
    {
      var _, line := b.Get(CRLF);
      var command := ToLower(SplitFirst(line, DELIMS));
      if command == "data" {
        DataCommand();
      } else {
        OtherCommand(command, line);
      }
    }

    /** go, for n iterations or until QUIT. */
    method Go(n: nat)
      requires !closed
      modifies this, b, b.f
      ensures Turn(sent, View())
              == After(old(sent) + ["250 " + hostname + " SMTP"], Transcript(hostname, old(View()), n))
    {
      SendReply("250 " + hostname + " SMTP");
      ghost var f, start, greeted := Rounds(hostname), View(), sent;
      var i := 0;
      while i < n && !closed
        invariant i <= n
        invariant Turn(sent, View()) == After(greeted, Iterate(f, start, i))
      {
        RoundAfter(f, start, i, greeted, Turn(sent, View()));
        Round();
        i := i + 1;
      }
      if closed {
        ClosedStays(f, start, i, n);
      }
    }
  }

  lemma {:induction false} OneMoreRound(f: Dialogue -> Turn, s: Dialogue, n: nat)
    ensures var t := Iterate(f, s, n);
      Iterate(f, s, n + 1) ==
        if t.next.closed then t else Turn(t.replies + f(t.next).replies, f(t.next).next)
    decreases n
  {
    if n > 0 && !s.closed {
      OneMoreRound(f, f(s).next, n - 1);
    }
  }

  lemma RoundAfter(f: Dialogue -> Turn, start: Dialogue, i: nat, greeted: seq<string>, now: Turn)
    requires now == After(greeted, Iterate(f, start, i)) && !now.next.closed
    ensures After(now.replies, f(now.next)) == After(greeted, Iterate(f, start, i + 1))
  {
    OneMoreRound(f, start, i);
  }

  lemma {:induction false} ClosedStays(f: Dialogue -> Turn, s: Dialogue, i: nat, n: nat)
    requires i <= n && Iterate(f, s, i).next.closed
    ensures Iterate(f, s, n) == Iterate(f, s, i)
    decreases n - i
  {
    if i < n {
      OneMoreRound(f, s, i);
      ClosedStays(f, s, i + 1, n);
    }
  }

  // ---------------------------------------------------------------- commands by their bytes

  predicate SameLetter(a: char, lower: char) {
    a == lower || ('A' <= a <= 'Z' && a as int + 32 == lower as int)
  }

  /** The line begins with the word, in upper or lower case, and then blank, tab, CR or LF. */
  predicate Says(line: string, word: string) {
    && |word| < |line| && line[|word|] in [' ', '\t', '\r', '\n']
    && forall k | 0 <= k < |word| :: SameLetter(line[k], word[k])
  }

  lemma {:induction false} ToLowerAt(s: string, k: nat)
    requires k < |s|
    ensures ToLower(s)[k] == if 'A' <= s[k] <= 'Z' then (s[k] as int + 32) as char else s[k]
  {
    if k > 0 { ToLowerAt(s[1..], k - 1); }
  }

  /** The command that go extracts from a line is a given word exactly when the line says so. */
  lemma CommandIs(line: string, word: string)
    requires word != "" && forall k | 0 <= k < |word| :: 'a' <= word[k] <= 'z'
    ensures Command(line) == word <==> Says(line, word)
  {
    hide ToLower, FindFirstOf;
    var f := FindFirstOf(line, DELIMS);
    assert forall c: char :: c in DELIMS <==> c in [' ', '\t', '\r', '\n'];
    var n := |word|;
    if f == Some(n) {
      assert SplitFirst(line, DELIMS) == line[..n];
      forall k | 0 <= k < n ensures Command(line)[k] == word[k] <==> SameLetter(line[k], word[k]) {
        ToLowerAt(line[..n], k);
      }
      assert Command(line) == word <==> forall k | 0 <= k < n :: Command(line)[k] == word[k];
    } else if f.Some? {
      assert |Command(line)| == f.value;
      if f.value < n { assert !SameLetter(line[f.value], word[f.value]); }
    } else {
      assert Command(line) == "";
    }
  }

  const WORDS := ["quit", "rcpt", "mail", "helo", "ehlo", "rset", "data"]

  lemma CommandIsWord(line: string, k: nat)
    requires k < 7
    ensures Command(line) == WORDS[k] <==> Says(line, WORDS[k])
  {
    CommandIs(line, WORDS[k]);
  }

  /** One iteration of go, told by the bytes of the line read: what is answered, what is remembered
      of the sender, and whether the session ends. */
  lemma AnswersByTheBytes(hostname: string, s: Dialogue)
    ensures var line, t := GetLine(s.rest, CRLF).text, Answer(hostname, s);
      && (t.next.closed <==> Says(line, "quit"))
      && (Says(line, "quit") ==> t.replies == ["221 bye."])
      && (Says(line, "data") ==> t.replies == ["354 Ok", "250 Ok"])
      && (Says(line, "rset") ==> t.replies == ["250 Ok"])
      && (Says(line, "helo") ==> t.replies == ["250 " + hostname])
      && (Says(line, "ehlo") ==> t.replies == ["250-" + hostname + "\r\n250-PIPELINING\r\n250 8BITMIME"])
      && (Says(line, "rcpt") && s.envFrom == "" ==> t.replies == ["503 send MAIL command first"])
      && ((forall k | 0 <= k < 7 :: !Says(line, WORDS[k])) ==> t.replies == ["502 command not implemented"])
      && t.next.rest == (var rest := GetLine(s.rest, CRLF).rest;
                         if Says(line, "data") then GetLine(rest, END_OF_DATA).rest else rest)
      && (Says(line, "data") || Says(line, "rset") ==> t.next.envFrom == "")
      && (!Says(line, "data") && !Says(line, "rset") && !Says(line, "mail") ==> t.next.envFrom == s.envFrom)
      && (|line| <= MAX_STRING ==>
            var i, j := FindFirstOf(line, "<"), FindLastOf(line, ">");
            && (Says(line, "mail") || (Says(line, "rcpt") && s.envFrom != "") ==>
                  t.replies == [if i.Some? && j.Some? && j.value != i.value + 2 then "250 Ok" else "501 Syntax Error"])
            && (Says(line, "mail") && (i.None? || j.None?) ==> t.next.envFrom == s.envFrom)
            && (Says(line, "mail") && i.Some? && j.Some? ==>
                  (t.next.envFrom == "" <==> i.value + 1 == |line| || j.value == 1)))
  {
    hide Command, Says, GetLine, FindEmailAddr, FindFirstOf, FindLastOf;
    var line := GetLine(s.rest, CRLF).text;
    assert WORDS[0] == "quit" && WORDS[1] == "rcpt" && WORDS[2] == "mail" && WORDS[3] == "helo"
        && WORDS[4] == "ehlo" && WORDS[5] == "rset" && WORDS[6] == "data";
    forall k: nat | k < 7 ensures Command(line) == WORDS[k] <==> Says(line, WORDS[k]) { CommandIsWord(line, k); }
    if |line| <= MAX_STRING {
      AddressAcceptedIff(line);
      var i, j := FindFirstOf(line, "<"), FindLastOf(line, ">");
      if i.Some? && j.Some? { AddressStored(line, i.value, j.value); }
    }
  }

  // ---------------------------------------------------------------- which RCPT is refused

  /** The state before iteration k, and the line that iteration reads. */
  function StateAt(hostname: string, s: Dialogue, k: nat): Dialogue {
    Transcript(hostname, s, k).next
  }

  function LineAt(hostname: string, s: Dialogue, k: nat): string {
    GetLine(StateAt(hostname, s, k).rest, CRLF).text
  }

  predicate Fits(line: string) { |line| <= MAX_STRING }

  /** The line gives a sender: MAIL with both brackets. */
  predicate GivesSender(line: string) {
    Says(line, "mail") && FindFirstOf(line, "<").Some? && FindLastOf(line, ">").Some?
  }

  /** Iteration m stored a sender that is not empty, and none of those after it, up to k, stored
      another, or reset it. */
  predicate Sender(hostname: string, s: Dialogue, m: nat, k: nat) {
    && m < k
    && (var line := LineAt(hostname, s, m);
        GivesSender(line) && FindFirstOf(line, "<").value + 1 < |line| && FindLastOf(line, ">").value != 1)
    && forall r | m < r < k ::
         var line := LineAt(hostname, s, r);
         !GivesSender(line) && !Says(line, "rset") && !Says(line, "data")
  }

  ghost predicate HasSender(hostname: string, s: Dialogue, k: nat) {
    exists m: nat :: Sender(hostname, s, m, k)
  }

  lemma StateNextIs(hostname: string, s: Dialogue, k: nat)
    ensures var now := StateAt(hostname, s, k);
      && StateAt(hostname, s, k + 1) == (if now.closed then now else Answer(hostname, now).next)
      && (!now.closed ==>
            Transcript(hostname, s, k + 1).replies
            == Transcript(hostname, s, k).replies + Answer(hostname, now).replies)
  {
    hide Answer;
    OneMoreRound(Rounds(hostname), s, k);
  }

  lemma SenderStays(hostname: string, s: Dialogue, k: nat)
    requires var line := LineAt(hostname, s, k);
      !GivesSender(line) && !Says(line, "rset") && !Says(line, "data")
    ensures HasSender(hostname, s, k + 1) <==> HasSender(hostname, s, k)
  {
    hide LineAt, GivesSender, Says;
    var next := k + 1;
    if m: nat :| Sender(hostname, s, m, k) { assert Sender(hostname, s, m, next); }
    if m: nat :| Sender(hostname, s, m, next) { assert m != k && Sender(hostname, s, m, k); }
  }

  lemma SenderGoes(hostname: string, s: Dialogue, k: nat)
    requires var line := LineAt(hostname, s, k);
      GivesSender(line) || Says(line, "rset") || Says(line, "data")
    ensures var line := LineAt(hostname, s, k);
      HasSender(hostname, s, k + 1) <==>
        GivesSender(line) && FindFirstOf(line, "<").value + 1 < |line| && FindLastOf(line, ">").value != 1
  {
    hide LineAt, Says, FindFirstOf, FindLastOf;
    var next := k + 1;
    if m: nat :| Sender(hostname, s, m, next) { assert m == k; }
    var line := LineAt(hostname, s, k);
    if GivesSender(line) && FindFirstOf(line, "<").value + 1 < |line| && FindLastOf(line, ">").value != 1 {
      assert Sender(hostname, s, k, k + 1);
    }
  }

  /** The server remembers a sender exactly while the last MAIL, RSET or DATA that touched it left
      one. */
  lemma {:induction false} RememberedIff(hostname: string, s: Dialogue, k: nat)
    requires s.envFrom == "" && !StateAt(hostname, s, k).closed
    requires forall r: nat :: r < k ==> Fits(LineAt(hostname, s, r))
    ensures StateAt(hostname, s, k).envFrom != "" <==> HasSender(hostname, s, k)
  {
    hide Answer, Says, FindFirstOf, FindLastOf, GetLine;
    if k > 0 {
      StateNextIs(hostname, s, k - 1);
      RememberedIff(hostname, s, k - 1);
      var line := LineAt(hostname, s, k - 1);
      AnswersByTheBytes(hostname, StateAt(hostname, s, k - 1));
      WordsExclude(line);
      if GivesSender(line) || Says(line, "rset") || Says(line, "data") {
        SenderGoes(hostname, s, k - 1);
      } else {
        SenderStays(hostname, s, k - 1);
      }
    }
  }

  lemma WordsExclude(line: string)
    ensures Says(line, "mail") ==> !Says(line, "rset") && !Says(line, "data")
  {
    assert "mail"[0] == 'm' && "rset"[0] == 'r' && "data"[0] == 'd';
  }

  /** RCPT in iteration k is answered "503 .." exactly when no sender is remembered from a MAIL since
      the start or the last RSET or DATA, and otherwise by its brackets. */
  lemma RcptIsAnswered(hostname: string, s: Dialogue, k: nat)
    requires s.envFrom == "" && !StateAt(hostname, s, k).closed && Says(LineAt(hostname, s, k), "rcpt")
    requires forall r: nat :: r <= k ==> Fits(LineAt(hostname, s, r))
    ensures var line := LineAt(hostname, s, k);
      var i, j := FindFirstOf(line, "<"), FindLastOf(line, ">");
      Transcript(hostname, s, k + 1).replies == Transcript(hostname, s, k).replies +
        [if !HasSender(hostname, s, k) then "503 send MAIL command first"
         else if i.Some? && j.Some? && j.value != i.value + 2 then "250 Ok" else "501 Syntax Error"]
  {
    hide Answer, Says, FindFirstOf, FindLastOf, GetLine, HasSender;
    RememberedIff(hostname, s, k);
    StateNextIs(hostname, s, k);
    AnswersByTheBytes(hostname, StateAt(hostname, s, k));
  }

  // ---------------------------------------------------------------- pipelining

  /** Two clients whose bytes are the same get the same replies, however the bytes were cut up. */
  method SegmentationDoesNotMatter(x: Session, y: Session, n: nat)
    requires x != y && x.b != y.b && x.b.f != y.b.f && x.hostname == y.hostname && x.View() == y.View()
    requires !x.closed && x.sent == y.sent
    modifies x, x.b, x.b.f, y, y.b, y.b.f
    ensures x.sent == y.sent && x.View() == y.View()
  {
    x.Go(n);
    y.Go(n);
  }

  /** What a client sends in one go: a command line other than DATA, or DATA and the message. */
  datatype Item = Cmd(line: string) | Message(line: string, body: string)

  function Bytes(item: Item): string {
    item.line + CRLF + if item.Message? then item.body else ""
  }

  function Sent(items: seq<Item>): string {
    if items == [] then "" else Bytes(items[0]) + Sent(items[1..])
  }

  /** The line is one line to the server, and the message ends with the mark, as get sees them. */
  predicate WellFormed(item: Item) {
    && StopsAt(item.line + CRLF, CRLF, |item.line| + 2)
    && (Command(item.line + CRLF) == "data" <==> item.Message?)
    && (item.Message? ==> StopsAt(item.body, END_OF_DATA, |item.body|))
  }

  /** How an item is answered; what the session remembers afterwards. */
  datatype Reaction = Reaction(replies: seq<string>, envFrom: string, quit: bool)

  /** The reaction to an item sent alone. */
  function React(hostname: string): (string, Item) -> Reaction {
    (envFrom: string, item: Item) =>
      match item
      case Cmd(l) =>
        var r := Respond(hostname, envFrom, Command(l + CRLF), l + CRLF);
        Reaction([r.reply], r.envFrom, r.quit)
      case Message(_, _) => Reaction(["354 Ok", "250 Ok"], "", false)
  }

  /** The items taken one at a time by g, with `rest` to follow; nothing is read after QUIT. */
  function OneByOne(g: (string, Item) -> Reaction, envFrom: string, items: seq<Item>, rest: string): Turn
    decreases |items|
  {
    if items == [] then Turn([], Dialogue(envFrom, rest, false))
    else
      var r := g(envFrom, items[0]);
      if r.quit then Turn(r.replies, Dialogue(r.envFrom, Sent(items[1..]) + rest, true))
      else After(r.replies, OneByOne(g, r.envFrom, items[1..], rest))
  }

  /** A round of f, given bytes that begin with the item, does to it what g does. */
  ghost predicate Handles(f: Dialogue -> Turn, g: (string, Item) -> Reaction, item: Item) {
    forall envFrom, tail ::
      f(Dialogue(envFrom, Bytes(item) + tail, false))
      == Turn(g(envFrom, item).replies, Dialogue(g(envFrom, item).envFrom, tail, g(envFrom, item).quit))
  }

  /** A text that get would stop after, if it were all, is delivered whatever follows it. */
  lemma ReadWhole(t: string, d: string, tail: string)
    requires d != "" && StopsAt(t, d, |t|)
    ensures GetLine(t + tail, d) == Line(t, false, tail)
  {
    var s := t + tail;
    assert s[..|t|] == t == t[..|t|] && s[|t|..] == tail;
    StopIsLocal(t, s, d, |t|);
    GetLineIs(s, d, |t|);
  }

  lemma RoundHandles(hostname: string, item: Item)
    requires WellFormed(item)
    ensures Handles(Rounds(hostname), React(hostname), item)
  {
    forall envFrom, tail ensures
      var r := React(hostname)(envFrom, item);
      Rounds(hostname)(Dialogue(envFrom, Bytes(item) + tail, false))
      == Turn(r.replies, Dialogue(r.envFrom, tail, r.quit))
    {
      RoundOnItem(hostname, envFrom, item, tail);
    }
  }

  lemma RoundOnItem(hostname: string, envFrom: string, item: Item, tail: string)
    requires WellFormed(item)
    ensures var r := React(hostname)(envFrom, item);
      Answer(hostname, Dialogue(envFrom, Bytes(item) + tail, false))
      == Turn(r.replies, Dialogue(r.envFrom, tail, r.quit))
  {
    hide Respond, Command, StopsAt, GetLine;
    var line := item.line + CRLF;
    if item.Message? {
      assert Bytes(item) + tail == line + (item.body + tail);
      ReadWhole(line, CRLF, item.body + tail);
      ReadWhole(item.body, END_OF_DATA, tail);
    } else {
      assert Bytes(item) + tail == line + tail;
      ReadWhole(line, CRLF, tail);
    }
  }

  lemma {:induction false} BatchIsHandledInOrder(f: Dialogue -> Turn, g: (string, Item) -> Reaction,
                                                 envFrom: string, items: seq<Item>, rest: string)
    requires forall item <- items :: Handles(f, g, item)
    ensures Iterate(f, Dialogue(envFrom, Sent(items) + rest, false), |items|) == OneByOne(g, envFrom, items, rest)
    decreases |items|
  {
    if items != [] {
      hide Bytes;
      var tail := Sent(items[1..]) + rest;
      var s := Dialogue(envFrom, Sent(items) + rest, false);
      assert s.rest == Bytes(items[0]) + tail;
      var r := g(envFrom, items[0]);
      OneItem(f, g, envFrom, items[0], tail);
      if r.quit {
        OnceClosed(f, Dialogue(r.envFrom, tail, true), |items| - 1);
      } else {
        BatchIsHandledInOrder(f, g, r.envFrom, items[1..], rest);
      }
    } else {
      assert Sent([]) + rest == rest;
    }
  }

  lemma OneItem(f: Dialogue -> Turn, g: (string, Item) -> Reaction, envFrom: string, item: Item, tail: string)
    requires Handles(f, g, item)
    ensures var r := g(envFrom, item);
      f(Dialogue(envFrom, Bytes(item) + tail, false)) == Turn(r.replies, Dialogue(r.envFrom, tail, r.quit))
  {
  }

  lemma OnceClosed(f: Dialogue -> Turn, s: Dialogue, n: nat)
    requires s.closed
    ensures Iterate(f, s, n) == Turn([], s)
  {
  }

  /** Pipelining, section 3.2 of RFC 2920: commands and messages sent in one go are answered one by
      one, in order, each as if it had been sent alone in its turn, and what follows them is left
      for the next rounds. */
  lemma PipelinedRepliesComeInOrder(hostname: string, envFrom: string, items: seq<Item>, rest: string)
    requires forall item <- items ::
      && StopsAt(item.line + CRLF, CRLF, |item.line| + 2)
      && (Says(item.line + CRLF, "data") <==> item.Message?)
      && (item.Message? ==> StopsAt(item.body, END_OF_DATA, |item.body|))
    ensures Transcript(hostname, Dialogue(envFrom, Sent(items) + rest, false), |items|)
            == OneByOne(React(hostname), envFrom, items, rest)
  {
    hide Says, Command, StopsAt, Handles;
    forall item <- items ensures Handles(Rounds(hostname), React(hostname), item) {
      CommandIs(item.line + CRLF, "data");
      RoundHandles(hostname, item);
    }
    BatchIsHandledInOrder(Rounds(hostname), React(hostname), envFrom, items, rest);
  }
}
