/** The development mail sink: a line machine fed by socket chunks. */
module SmtpSink {
  /** What the handler does to the outside world, in order. */
  datatype Effect = Reply(text: string) | Capture(message: string) | HangUp

  datatype Session = Session(buffer: string, inData: bool, current: string, log: seq<Effect>)

  const CRLF := "\r\n"
  const OK := Reply("250 2.0.0 OK\r\n")
  const GREETED := Reply("250-souq-sink\r\n250 8BITMIME\r\n")
  const GO_AHEAD := Reply("354 End data with <CR><LF>.<CR><LF>\r\n")
  const BYE := Reply("221 2.0.0 Bye\r\n")

  predicate CrlfAt(s: string, k: nat) { k + 1 < |s| && s[k] == '\r' && s[k + 1] == '\n' }

  ghost predicate CrlfFree(s: string) { forall k: nat :: !CrlfAt(s, k) }

  /** `s.indexOf('\r\n')` */
  function IndexOfCrlf(s: string, from: nat := 0): (i: int)
    requires from <= |s|
    ensures i == -1 ==> forall k: nat :: from <= k ==> !CrlfAt(s, k)
    ensures i != -1 ==> from <= i && CrlfAt(s, i) && forall k: nat :: from <= k < i ==> !CrlfAt(s, k)
    decreases |s| - from
  {
    if CrlfAt(s, from) then from else if from < |s| then IndexOfCrlf(s, from + 1) else -1
  }

  predicate StartsWith(s: string, prefix: string) { prefix <= s }

  function Unstuffed(line: string): string { if StartsWith(line, "..") then line[1..] else line }

  /** One line; `upper` stands for `String.prototype.toUpperCase`. */
  function OnLine(upper: string -> string, st: Session, line: string): (r: Session)
    ensures r.buffer == st.buffer && st.log <= r.log
  {
    if st.inData then
      if line == "." then
        st.(inData := false, current := "", log := st.log + [Capture(st.current), OK])
      else
        st.(current := st.current + Unstuffed(line) + "\n")
    else
      var cmd := upper(line);
      if StartsWith(cmd, "EHLO") || StartsWith(cmd, "HELO") then st.(log := st.log + [GREETED])
      else if cmd == "DATA" then st.(inData := true, log := st.log + [GO_AHEAD])
      else if cmd == "QUIT" then st.(log := st.log + [BYE, HangUp])
      else st.(log := st.log + [OK])
  }

  /** Every complete line in the buffer, in order. */
  function Drain(upper: string -> string, st: Session): (r: Session)
    ensures st.log <= r.log
    ensures CrlfFree(r.buffer)
    decreases |st.buffer|
  {
    var i := IndexOfCrlf(st.buffer);
    if i == -1 then st
    else Drain(upper, OnLine(upper, st.(buffer := st.buffer[i + 2..]), st.buffer[..i]))
  }

  lemma DrainStep(upper: string -> string, st: Session)
    requires IndexOfCrlf(st.buffer) != -1
    ensures var i := IndexOfCrlf(st.buffer);
      Drain(upper, st) == Drain(upper, OnLine(upper, st.(buffer := st.buffer[i + 2..]), st.buffer[..i]))
  {
  }

  function Feed(upper: string -> string, st: Session, chunk: string): (r: Session)
    ensures st.log <= r.log
    ensures CrlfFree(r.buffer)
  {
    Drain(upper, st.(buffer := st.buffer + chunk))
  }

  function Captured(log: seq<Effect>): seq<string> {
    if log == [] then []
    else
      var e := log[|log| - 1];
      Captured(log[..|log| - 1]) + if e.Capture? then [e.message] else []
  }

  /** The socket handler's closure. */
  class Sink {
    const upper: string -> string
    var buffer: string
    var inData: bool
    var current: string
    var messages: seq<string>
    var log: seq<Effect>

    ghost predicate Valid() reads this { messages == Captured(log) }

    ghost function State(): Session reads this { Session(buffer, inData, current, log) }

    constructor (upper: string -> string)
      ensures Valid() && State() == Session("", false, "", []) && this.upper == upper
    {
      this.upper := upper;
      buffer, inData, current, messages, log := "", false, "", [], [];
    }

    method OnData(chunk: string)
      requires Valid()
      modifies this
      ensures Valid() && State() == Feed(upper, old(State()), chunk)
    {
      hide Drain, Captured, IndexOfCrlf, CrlfFree, StartsWith, Unstuffed;
      buffer := buffer + chunk;
      var i := IndexOfCrlf(buffer);
      while i != -1
        invariant Valid() && i == IndexOfCrlf(buffer)
        invariant Drain(upper, State()) == Feed(upper, old(State()), chunk)
        decreases |buffer|
      {
        ghost var before := State();
        DrainStep(upper, before);
        var line := buffer[..i];
        buffer := buffer[i + 2..];
        if inData {
          if line == "." {
            inData := false;
            messages := messages + [current];
            Logged(log, [Capture(current), OK]);
            log := log + [Capture(current), OK];
            current := "";
          } else {
            current := current + Unstuffed(line) + "\n";
          }
        } else {
          var cmd := upper(line);
          if StartsWith(cmd, "EHLO") || StartsWith(cmd, "HELO") {
            Logged(log, [GREETED]);
            log := log + [GREETED];
          } else if cmd == "DATA" {
            inData := true;
            Logged(log, [GO_AHEAD]);
            log := log + [GO_AHEAD];
          } else if cmd == "QUIT" {
            Logged(log, [BYE, HangUp]);
            log := log + [BYE, HangUp];
          } else {
            Logged(log, [OK]);
            log := log + [OK];
          }
        }
        assert State() == OnLine(upper, before.(buffer := buffer), line);
        i := IndexOfCrlf(buffer);
      }
      NothingToDrain(upper, State());
    }
  }

  lemma NothingToDrain(upper: string -> string, st: Session)
    requires IndexOfCrlf(st.buffer) == -1
    ensures Drain(upper, st) == st
  {
  }

  lemma {:induction false} Joined(log: seq<Effect>, more: seq<Effect>)
    ensures Captured(log + more) == Captured(log) + Captured(more)
  {
    if more == [] {
      assert log + more == log;
    } else {
      var n := |more| - 1;
      Joined(log, more[..n]);
      assert (log + more)[..|log + more| - 1] == log + more[..n];
    }
  }

  lemma Logged(log: seq<Effect>, es: seq<Effect>)
    requires 1 <= |es| <= 2 && (|es| == 2 ==> !es[1].Capture?)
    ensures Captured(log + es) == Captured(log) + if es[0].Capture? then [es[0].message] else []
  {
    Joined(log, es);
    assert es == [es[0]] + es[1..];
    Joined([es[0]], es[1..]);
    assert Captured([es[0]][..0]) == [];
    assert Captured(es[1..]) == [];
  }

  // ------------------------------------------------------------------------------------------
  // Chunking does not matter
  // ------------------------------------------------------------------------------------------

  /** Handling a line leaves the text after it alone. */
  lemma BufferAside(upper: string -> string, st: Session, line: string, buffer: string)
    ensures OnLine(upper, st.(buffer := buffer), line) == OnLine(upper, st, line).(buffer := buffer)
  {
  }

  /** Lines already complete are handled the same whether or not more text follows. */
  lemma {:induction false} DrainThenMore(upper: string -> string, st: Session, more: string)
    ensures Feed(upper, Drain(upper, st), more) == Feed(upper, st, more)
    decreases |st.buffer|
  {
    hide OnLine;
    var i := IndexOfCrlf(st.buffer);
    if i != -1 {
      var both := st.buffer + more;
      assert forall k: nat :: k < i + 1 ==> (CrlfAt(both, k) <==> CrlfAt(st.buffer, k));
      assert IndexOfCrlf(both) == i;
      assert both[i + 2..] == st.buffer[i + 2..] + more;
      assert both[..i] == st.buffer[..i];
      var next := OnLine(upper, st.(buffer := st.buffer[i + 2..]), st.buffer[..i]);
      BufferAside(upper, st, st.buffer[..i], st.buffer[i + 2..]);
      BufferAside(upper, st, st.buffer[..i], both[i + 2..]);
      DrainThenMore(upper, next, more);
    }
  }

  lemma FeedTwice(upper: string -> string, st: Session, a: string, b: string)
    ensures Feed(upper, Feed(upper, st, a), b) == Feed(upper, st, a + b)
  {
    hide Drain;
    DrainThenMore(upper, st.(buffer := st.buffer + a), b);
    assert st.buffer + a + b == st.buffer + (a + b);
  }

  function FeedAll(upper: string -> string, st: Session, chunks: seq<string>): Session {
    if chunks == [] then st
    else Feed(upper, FeedAll(upper, st, chunks[..|chunks| - 1]), chunks[|chunks| - 1])
  }

  function Concat(chunks: seq<string>): string {
    if chunks == [] then "" else Concat(chunks[..|chunks| - 1]) + chunks[|chunks| - 1]
  }

  /** The sink's state and everything it did depend on the text alone, not on how it was cut into chunks. */
  lemma {:induction false} ChunkingIsInvisible(upper: string -> string, st: Session, chunks: seq<string>)
    requires CrlfFree(st.buffer)
    ensures FeedAll(upper, st, chunks) == Feed(upper, st, Concat(chunks))
  {
    if chunks == [] {
      assert st.buffer + "" == st.buffer;
      NothingToDrain(upper, st);
    } else {
      hide Feed;
      var before, last := chunks[..|chunks| - 1], chunks[|chunks| - 1];
      ChunkingIsInvisible(upper, st, before);
      FeedTwice(upper, st, Concat(before), last);
    }
  }

  /** What a client sees: everything up to and including the hang-up. */
  function UpToQuit(log: seq<Effect>): seq<Effect> {
    if log == [] || log[0] == HangUp then log[..if log == [] then 0 else 1]
    else [log[0]] + UpToQuit(log[1..])
  }

  lemma {:induction false} QuitIsFinal(log: seq<Effect>, log': seq<Effect>)
    requires log <= log' && HangUp in log
    ensures UpToQuit(log') == UpToQuit(log)
  {
    if log[0] != HangUp {
      QuitIsFinal(log[1..], log'[1..]);
    }
  }

  /** Two clients that send the same text see the same replies and leave the same messages up to QUIT,
      however the text is cut, and even if the socket dies at some point after QUIT. */
  lemma SameUpToQuit(upper: string -> string, st: Session, one: seq<string>, other: seq<string>, lived: nat)
    requires CrlfFree(st.buffer) && Concat(one) == Concat(other)
    requires lived <= |one| && (lived < |one| ==> HangUp in FeedAll(upper, st, one[..lived]).log)
    ensures UpToQuit(FeedAll(upper, st, one[..lived]).log) == UpToQuit(FeedAll(upper, st, other).log)
  {
    ChunkingIsInvisible(upper, st, one);
    ChunkingIsInvisible(upper, st, other);
    if lived < |one| {
      LogGrows(upper, st, one, lived);
      QuitIsFinal(FeedAll(upper, st, one[..lived]).log, FeedAll(upper, st, one).log);
    } else {
      assert one[..lived] == one;
    }
  }

  lemma {:induction false} LogGrows(upper: string -> string, st: Session, chunks: seq<string>, n: nat)
    requires n <= |chunks|
    ensures FeedAll(upper, st, chunks[..n]).log <= FeedAll(upper, st, chunks).log
    decreases |chunks| - n
  {
    if n == |chunks| {
      assert chunks[..n] == chunks;
    } else {
      LogGrows(upper, st, chunks, n + 1);
      assert chunks[..n + 1][..n] == chunks[..n];
    }
  }

  // ------------------------------------------------------------------------------------------
  // Dot-stuffing (section 4.5.2 of RFC 5321)
  // ------------------------------------------------------------------------------------------

  function Stuffed(line: string): string { if StartsWith(line, ".") then "." + line else line }

  /** The body as a client sends it, up to but not including the terminating dot. */
  function Wire(lines: seq<string>): string {
    if lines == [] then "" else Stuffed(lines[0]) + CRLF + Wire(lines[1..])
  }

  function Unlines(lines: seq<string>): string {
    if lines == [] then "" else lines[0] + "\n" + Unlines(lines[1..])
  }

  lemma FirstLine(line: string, rest: string)
    requires CrlfFree(line)
    ensures var s := line + CRLF + rest;
      IndexOfCrlf(s) == |line| && s[..|line|] == line && s[|line| + 2..] == rest
  {
    var s := line + CRLF + rest;
    assert CrlfAt(s, |line|);
    forall k: nat | k < |line| ensures !CrlfAt(s, k) {
      assert !CrlfAt(line, k);
    }
  }

  lemma OneLine(upper: string -> string, st: Session, line: string, rest: string)
    requires CrlfFree(line)
    ensures Drain(upper, st.(buffer := line + CRLF + rest)) ==
      Drain(upper, OnLine(upper, st.(buffer := rest), line))
  {
    FirstLine(line, rest);
  }

  lemma StuffedFree(line: string)
    requires CrlfFree(line)
    ensures CrlfFree(Stuffed(line))
  {
    forall k: nat ensures !CrlfAt(Stuffed(line), k) {
      assert StartsWith(line, ".") && k > 0 ==> (CrlfAt(Stuffed(line), k) <==> CrlfAt(line, k - 1));
    }
  }

  lemma {:induction false} BodyLines(upper: string -> string, st: Session, lines: seq<string>, rest: string)
    requires st.inData && forall l :: l in lines ==> CrlfFree(l)
    ensures Drain(upper, st.(buffer := Wire(lines) + rest)) ==
      Drain(upper, st.(buffer := rest, current := st.current + Unlines(lines)))
    decreases |lines|
  {
    hide Drain, IndexOfCrlf, CrlfFree;
    if lines == [] {
      assert "" + rest == rest && st.current + "" == st.current;
    } else {
      var line, more := lines[0], Wire(lines[1..]) + rest;
      Assoc(Stuffed(line) + CRLF, Wire(lines[1..]), rest);
      BodyLine(upper, st, line, more);
      var next := st.(current := st.current + (line + "\n"));
      BodyLines(upper, next, lines[1..], rest);
      Assoc(st.current, line + "\n", Unlines(lines[1..]));
    }
  }

  lemma Assoc(a: string, b: string, c: string)
    ensures a + b + c == a + (b + c)
  {
  }

  lemma BodyLine(upper: string -> string, st: Session, line: string, rest: string)
    requires st.inData && CrlfFree(line)
    ensures Drain(upper, st.(buffer := Stuffed(line) + CRLF + rest)) ==
      Drain(upper, st.(buffer := rest, current := st.current + (line + "\n")))
  {
    hide Drain, IndexOfCrlf;
    StuffedFree(line);
    OneLine(upper, st, Stuffed(line), rest);
    assert st.current + line + "\n" == st.current + (line + "\n");
    assert StartsWith(line, ".") ==> Stuffed(line)[1..] == line;
    assert Stuffed(line) != ".";
  }

  /** A dot-stuffed body arrives as exactly the lines that were sent, whatever is sent after it. */
  lemma MessageArrives(upper: string -> string, st: Session, lines: seq<string>, tail: string)
    requires upper("DATA") == "DATA"
    requires st.buffer == "" && !st.inData && st.current == ""
    requires forall l :: l in lines ==> CrlfFree(l)
    ensures Feed(upper, st, "DATA" + CRLF + (Wire(lines) + ("." + CRLF + tail))) ==
      Feed(upper, st.(log := st.log + [GO_AHEAD, Capture(Unlines(lines)), OK]), tail)
  {
    hide Drain, IndexOfCrlf, Wire;
    var body := Wire(lines) + ("." + CRLF + tail);
    assert st.buffer + ("DATA" + CRLF + body) == "DATA" + CRLF + body;
    OneLine(upper, st, "DATA", body);
    assert "DATA"[0] != "EHLO"[0] && "DATA"[0] != "HELO"[0];
    var open := st.(inData := true, log := st.log + [GO_AHEAD]);
    assert OnLine(upper, st.(buffer := body), "DATA") == open.(buffer := body);
    BodyLines(upper, open, lines, "." + CRLF + tail);
    var full := open.(current := Unlines(lines));
    assert open.current + Unlines(lines) == Unlines(lines);
    OneLine(upper, full, ".", tail);
    var done := st.(log := st.log + [GO_AHEAD, Capture(Unlines(lines)), OK]);
    assert st.log + [GO_AHEAD] + [Capture(Unlines(lines)), OK] == done.log;
    assert OnLine(upper, full.(buffer := tail), ".") == done.(buffer := tail);
    assert done.buffer + tail == tail;
  }

  // ------------------------------------------------------------------------------------------
  // A whole session
  // ------------------------------------------------------------------------------------------

  /** A command that only asks to be acknowledged: MAIL, RCPT, RSET, NOOP or anything unknown. */
  ghost predicate Ordinary(upper: string -> string, line: string) {
    && CrlfFree(line)
    && !("EHLO" <= upper(line)) && !("HELO" <= upper(line))
    && upper(line) != "DATA" && upper(line) != "QUIT"
  }

  ghost predicate Hello(upper: string -> string, line: string) {
    CrlfFree(line) && ("EHLO" <= upper(line) || "HELO" <= upper(line))
  }

  lemma Command(upper: string -> string, st: Session, line: string, tail: string)
    requires st.buffer == "" && !st.inData && CrlfFree(line)
    ensures Hello(upper, line) ==> Feed(upper, st, line + CRLF + tail) == Feed(upper, st.(log := st.log + [GREETED]), tail)
    ensures Ordinary(upper, line) ==> Feed(upper, st, line + CRLF + tail) == Feed(upper, st.(log := st.log + [OK]), tail)
    ensures upper(line) == "QUIT" ==> Feed(upper, st, line + CRLF + tail) == Feed(upper, st.(log := st.log + [BYE, HangUp]), tail)
  {
    hide Drain, IndexOfCrlf, CrlfFree;
    assert st.buffer + (line + CRLF + tail) == line + CRLF + tail && st.buffer + tail == tail;
    OneLine(upper, st, line, tail);
    assert "QUIT"[0] == 'Q' && "EHLO"[0] == 'E' && "HELO"[0] == 'H' && "DATA"[0] == 'D';
  }

  /** Commands one after another, and the text after them. */
  function Commands(lines: seq<string>, tail: string): string {
    if lines == [] then tail else lines[0] + CRLF + Commands(lines[1..], tail)
  }

  lemma {:induction false} Acknowledged(upper: string -> string, st: Session, lines: seq<string>, tail: string)
    requires st.buffer == "" && !st.inData && forall l :: l in lines ==> Ordinary(upper, l)
    ensures Feed(upper, st, Commands(lines, tail)) == Feed(upper, st.(log := st.log + seq(|lines|, i => OK)), tail)
    decreases |lines|
  {
    hide Feed, CrlfFree, Ordinary;
    if lines == [] {
      assert st.log + seq(0, i => OK) == st.log;
    } else {
      assert Ordinary(upper, lines[0]);
      OrdinaryFree(upper, lines[0]);
      Command(upper, st, lines[0], Commands(lines[1..], tail));
      var next := st.(log := st.log + [OK]);
      Acknowledged(upper, next, lines[1..], tail);
      assert next.log + seq(|lines| - 1, i => OK) == st.log + seq(|lines|, i => OK);
    }
  }

  lemma OrdinaryFree(upper: string -> string, line: string)
    requires Ordinary(upper, line)
    ensures CrlfFree(line)
  {
  }

  /** A mail as it is handed over: the commands that name sender and recipients, and the lines of its body. */
  datatype Mail = Mail(envelope: seq<string>, lines: seq<string>)

  function MailText(mail: Mail, tail: string): string {
    Commands(mail.envelope, "DATA" + CRLF + (Wire(mail.lines) + ("." + CRLF + tail)))
  }

  function MailsText(mails: seq<Mail>, tail: string): string {
    if mails == [] then tail else MailText(mails[0], MailsText(mails[1..], tail))
  }

  ghost predicate Sendable(upper: string -> string, mail: Mail) {
    (forall l :: l in mail.envelope ==> Ordinary(upper, l)) && forall l :: l in mail.lines ==> CrlfFree(l)
  }

  function Answers(mail: Mail): seq<Effect> {
    seq(|mail.envelope|, i => OK) + [GO_AHEAD, Capture(Unlines(mail.lines)), OK]
  }

  function AllAnswers(mails: seq<Mail>): seq<Effect> {
    if mails == [] then [] else Answers(mails[0]) + AllAnswers(mails[1..])
  }

  lemma OneMail(upper: string -> string, st: Session, mail: Mail, tail: string)
    requires upper("DATA") == "DATA" && Sendable(upper, mail)
    requires st.buffer == "" && !st.inData && st.current == ""
    ensures Feed(upper, st, MailText(mail, tail)) == Feed(upper, st.(log := st.log + Answers(mail)), tail)
  {
    hide Feed, CrlfFree, Ordinary, Unlines, Wire;
    Acknowledged(upper, st, mail.envelope, "DATA" + CRLF + (Wire(mail.lines) + ("." + CRLF + tail)));
    var next := st.(log := st.log + seq(|mail.envelope|, i => OK));
    MessageArrives(upper, next, mail.lines, tail);
    assert next.log + [GO_AHEAD, Capture(Unlines(mail.lines)), OK] == st.log + Answers(mail);
  }

  lemma {:induction false} AllMails(upper: string -> string, st: Session, mails: seq<Mail>, tail: string)
    requires upper("DATA") == "DATA" && forall m :: m in mails ==> Sendable(upper, m)
    requires st.buffer == "" && !st.inData && st.current == ""
    ensures Feed(upper, st, MailsText(mails, tail)) == Feed(upper, st.(log := st.log + AllAnswers(mails)), tail)
    decreases |mails|
  {
    hide Feed, Sendable, MailText, Answers;
    if mails == [] {
      assert st.log + [] == st.log;
    } else {
      OneMail(upper, st, mails[0], MailsText(mails[1..], tail));
      var next := st.(log := st.log + Answers(mails[0]));
      AllMails(upper, next, mails[1..], tail);
      assert next.log + AllAnswers(mails[1..]) == st.log + AllAnswers(mails);
    }
  }

  lemma {:induction false} AnswersCapture(mails: seq<Mail>)
    ensures Captured(AllAnswers(mails)) == seq(|mails|, i requires 0 <= i < |mails| => Unlines(mails[i].lines))
  {
    hide Unlines;
    if mails != [] {
      hide Captured, Answers;
      AnswersCapture(mails[1..]);
      Joined(Answers(mails[0]), AllAnswers(mails[1..]));
      OneCapture(mails[0]);
    }
  }

  lemma OneCapture(mail: Mail)
    ensures Captured(Answers(mail)) == [Unlines(mail.lines)]
  {
    hide Unlines;
    var oks := seq(|mail.envelope|, i => OK);
    NoCapture(oks);
    Logged(oks + [GO_AHEAD], [Capture(Unlines(mail.lines)), OK]);
    Logged(oks, [GO_AHEAD]);
    assert oks + [GO_AHEAD] + [Capture(Unlines(mail.lines)), OK] == Answers(mail);
  }

  lemma {:induction false} NoCapture(log: seq<Effect>)
    requires forall e :: e in log ==> !e.Capture?
    ensures Captured(log) == []
  {
    if log != [] { NoCapture(log[..|log| - 1]); }
  }

  /** A connection that says hello, hands over its mails and quits is answered command by command and hung up on, and
      leaves each mail's lines, however its text is cut into chunks. */
  lemma WholeSession(upper: string -> string, hello: string, mails: seq<Mail>, chunks: seq<string>)
    requires upper("DATA") == "DATA" && upper("QUIT") == "QUIT"
    requires Hello(upper, hello) && forall m :: m in mails ==> Sendable(upper, m)
    requires Concat(chunks) == hello + CRLF + MailsText(mails, "QUIT" + CRLF)
    ensures var st := FeedAll(upper, Session("", false, "", []), chunks);
      && st == Session("", false, "", [GREETED] + AllAnswers(mails) + [BYE, HangUp])
      && Captured(st.log) == seq(|mails|, i requires 0 <= i < |mails| => Unlines(mails[i].lines))
  {
    hide Feed, Sendable, MailsText, AllAnswers, Concat, FeedAll, Captured, Unlines, Hello, CrlfFree;
    NoCrlf("");
    ChunkingIsInvisible(upper, Session("", false, "", []), chunks);
    Conversation(upper, hello, mails);
    AnswersCapture(mails);
    Framed(AllAnswers(mails));
  }

  lemma Conversation(upper: string -> string, hello: string, mails: seq<Mail>)
    requires upper("DATA") == "DATA" && upper("QUIT") == "QUIT"
    requires Hello(upper, hello) && forall m :: m in mails ==> Sendable(upper, m)
    ensures Feed(upper, Session("", false, "", []), hello + CRLF + MailsText(mails, "QUIT" + CRLF)) ==
      Session("", false, "", [GREETED] + AllAnswers(mails) + [BYE, HangUp])
  {
    hide Feed, Sendable, MailsText, AllAnswers, CrlfFree;
    var start := Session("", false, "", []);
    Command(upper, start, hello, MailsText(mails, "QUIT" + CRLF));
    assert [] + [GREETED] == [GREETED];
    AllMails(upper, start.(log := [GREETED]), mails, "QUIT" + CRLF);
    QuitLast(upper, start.(log := [GREETED] + AllAnswers(mails)));
  }

  lemma Framed(log: seq<Effect>)
    ensures Captured([GREETED] + log + [BYE, HangUp]) == Captured(log)
  {
    Joined([GREETED] + log, [BYE, HangUp]);
    Joined([GREETED], log);
    NoCapture([GREETED]);
    NoCapture([BYE, HangUp]);
  }

  lemma NoCrlf(s: string)
    requires '\r' !in s
    ensures CrlfFree(s)
  {
  }

  lemma QuitLast(upper: string -> string, st: Session)
    requires upper("QUIT") == "QUIT" && st.buffer == "" && !st.inData
    ensures Feed(upper, st, "QUIT" + CRLF) == st.(log := st.log + [BYE, HangUp])
  {
    NoCrlf("QUIT");
    assert "QUIT" + CRLF + "" == "QUIT" + CRLF;
    Command(upper, st, "QUIT", "");
    NothingToDrain(upper, st.(log := st.log + [BYE, HangUp]));
    assert st.buffer + "" == "";
  }

  /** `message.split('\n')` without the empty string after the last line feed. */
  function Lines(message: string, line: string := ""): seq<string> {
    if message == "" then []
    else if message[0] == '\n' then [line] + Lines(message[1..])
    else Lines(message[1..], line + [message[0]])
  }

  lemma {:induction false} LinesOf(lines: seq<string>, done: nat)
    requires forall l :: l in lines ==> '\n' !in l
    requires done <= if lines == [] then 0 else |lines[0]|
    ensures lines != [] ==>
      Lines(lines[0][done..] + "\n" + Unlines(lines[1..]), lines[0][..done]) == lines
    ensures done == 0 ==> Lines(Unlines(lines)) == lines
    decreases |lines|, if lines == [] then 0 else |lines[0]| - done
  {
    if lines != [] {
      var line, rest := lines[0], Unlines(lines[1..]);
      var text := line[done..] + "\n" + rest;
      if done == |line| {
        assert text[1..] == rest && line[..done] == line;
        LinesOf(lines[1..], 0);
        assert Lines(text, line) == [line] + Lines(rest);
        assert lines == [line] + lines[1..];
      } else {
        LinesOf(lines, done + 1);
        assert line in lines && text[0] == line[done];
        assert text[1..] == line[done + 1..] + "\n" + rest;
        assert line[..done] + [line[done]] == line[..done + 1];
      }
      assert done == 0 ==> text == Unlines(lines) && line[..done] == "";
    }
  }

  lemma {:induction false} PiecesAreLines(message: string, line: string)
    requires '\n' !in line
    ensures forall l :: l in Lines(message, line) ==> '\n' !in l
    decreases |message|
  {
    if message != "" {
      if message[0] == '\n' {
        PiecesAreLines(message[1..], "");
      } else {
        PiecesAreLines(message[1..], line + [message[0]]);
      }
    }
  }

  /** The lines that were sent can be read back from the captured message if and only if none of them holds a bare line
      feed, which a line may. */
  lemma LinesReadBackExactly(lines: seq<string>)
    ensures Lines(Unlines(lines)) == lines <==> forall l :: l in lines ==> '\n' !in l
  {
    PiecesAreLines(Unlines(lines), "");
    if forall l :: l in lines ==> '\n' !in l { LinesOf(lines, 0); }
  }

  /** A line with a bare line feed is accepted, and comes back as two. */
  lemma BareLineFeed()
    ensures CrlfFree("a\nb") && Lines(Unlines(["a\nb"])) == ["a", "b"]
  {
    var s := "a\nb";
    assert s[0] == 'a' && s[1] == '\n' && s[2] == 'b';
    assert forall k: nat :: !CrlfAt(s, k);
    assert ["a\nb"][1..] == [];
    assert Unlines(["a\nb"]) == "a\nb\n";
    LinesOf(["a", "b"], 0);
    assert ["a", "b"][1..] == ["b"] && ["b"][1..] == [];
    assert Unlines(["b"]) == "b\n";
    assert Unlines(["a", "b"]) == "a\nb\n";
  }
}
