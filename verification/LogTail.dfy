/** The polling loop of `job_logs_ws` in `backend/routers/jobs.py`: read the job's status, then
    the log from a byte position, until the status is terminal.  A writer appends whole
    characters and changes the status at any moment in between. */
module LogTail {
  import opened Text
  import opened Utf8

  /** The log file and the job row as other processes leave them. */
  datatype World = World(present: bool, log: string, status: Option<string>) {
    ghost predicate Valid() { !present ==> log == "" }
  }

  datatype Change = Append(text: string) | SetStatus(status: string) | DeleteRow

  function Apply(w: World, c: Change): World
  {
    match c
    case Append(text) => w.(present := true, log := w.log + text)
    case SetStatus(status) => w.(status := Some(status))
    case DeleteRow => w.(status := None)
  }

  function ApplyAll(w: World, changes: seq<Change>): World
    decreases |changes|
  {
    if changes == [] then w else ApplyAll(Apply(w, changes[0]), changes[1..])
  }

  /** What happens around one turn of the loop: before the status read, and between the two reads. */
  datatype Round = Round(before: seq<Change>, between: seq<Change>)

  function WorldAfter(w: World, rounds: seq<Round>): World
  {
    if rounds == [] then w
    else
      var r := rounds[|rounds| - 1];
      ApplyAll(ApplyAll(WorldAfter(w, rounds[..|rounds| - 1]), r.before), r.between)
  }

  /** All appended texts, in order. */
  function Appended(changes: seq<Change>): string
  {
    if changes == [] then ""
    else
      var last := changes[|changes| - 1];
      Appended(changes[..|changes| - 1]) + if last.Append? then last.text else ""
  }

  /** The status of the job's row, if there is one, as the last change to it left it. */
  function LastStatus(first: Option<string>, changes: seq<Change>): Option<string>
  {
    if changes == [] then first
    else match changes[|changes| - 1]
      case SetStatus(status) => Some(status)
      case DeleteRow => None
      case Append(_) => LastStatus(first, changes[..|changes| - 1])
  }

  /** All changes around the turns of a schedule, in order. */
  function ChangesOf(rounds: seq<Round>): seq<Change>
  {
    if rounds == [] then []
    else ChangesOf(rounds[..|rounds| - 1]) + (rounds[|rounds| - 1].before + rounds[|rounds| - 1].between)
  }

  lemma {:induction false} ApplyAllConcat(w: World, a: seq<Change>, b: seq<Change>)
    ensures ApplyAll(w, a + b) == ApplyAll(ApplyAll(w, a), b)
    decreases |a|
  {
    if a == [] {
      assert a + b == b;
    } else {
      assert (a + b)[1..] == a[1..] + b;
      ApplyAllConcat(Apply(w, a[0]), a[1..], b);
    }
  }

  lemma {:induction false} WorldAfterChanges(w: World, changes: seq<Change>)
    ensures ApplyAll(w, changes).log == w.log + Appended(changes)
    ensures ApplyAll(w, changes).status == LastStatus(w.status, changes)
    ensures ApplyAll(w, changes).present <==> w.present || exists i :: 0 <= i < |changes| && changes[i].Append?
  {
    if changes != [] {
      var init, last := changes[..|changes| - 1], changes[|changes| - 1];
      WorldAfterChanges(w, init);
      assert changes == init + [last] && [last][1..] == [];
      ApplyAllConcat(w, init, [last]);
      assert ApplyAll(w, changes) == Apply(ApplyAll(w, init), last);
    }
  }

  /** What a schedule leaves: the log with every text appended around its turns, and the status the
      last change set. */
  lemma {:induction false} WorldAfterSchedule(w: World, rounds: seq<Round>)
    ensures WorldAfter(w, rounds) == ApplyAll(w, ChangesOf(rounds))
    ensures WorldAfter(w, rounds).log == w.log + Appended(ChangesOf(rounds))
    ensures WorldAfter(w, rounds).status == LastStatus(w.status, ChangesOf(rounds))
  {
    if rounds != [] {
      var init, r := rounds[..|rounds| - 1], rounds[|rounds| - 1];
      WorldAfterSchedule(w, init);
      ApplyAllConcat(WorldAfter(w, init), r.before, r.between);
      ApplyAllConcat(w, ChangesOf(init), r.before + r.between);
    }
    WorldAfterChanges(w, ChangesOf(rounds));
  }

  // ── reading in text mode ───────────────────────────────────────────────────

  /** Universal newlines: "\r\n" and a lone "\r" are read as "\n". */
  function Translated(s: string): string
  {
    if s == "" then ""
    else if s[0] == '\r' then "\n" + Translated(if |s| >= 2 && s[1] == '\n' then s[2..] else s[1..])
    else [s[0]] + Translated(s[1..])
  }

  /** `f.seek(position); f.read()`. */
  function ReadFrom(log: string, position: nat): Option<string>
  {
    var bytes := Encode(log);
    if position >= |bytes| then Some("")
    else match Decode(bytes[position..])
      case None => None
      case Some(s) => Some(Translated(s))
  }

  predicate IsLineBreak(c: char)
  {
    '\n' <= c <= '\r' || '\U{1c}' <= c <= '\U{1e}' || c == '\U{85}' || c == '\U{2028}' || c == '\U{2029}'
  }

  /** `str.splitlines()` on text without carriage returns, as newline translation leaves it. */
  function SplitLines(s: string): (lines: seq<string>)
    ensures s != "" ==> lines != []
  {
    if s == "" then []
    else
      var rest := SplitLines(s[1..]);
      if IsLineBreak(s[0]) then [""] + rest
      else if |s| == 1 then [s]
      else [[s[0]] + rest[0]] + rest[1..]
  }

  predicate Terminal(status: string) { status == "success" || status == "failed" }

  /** A job whose row is gone counts as failed. */
  function StatusOf(w: World): string { if w.status.Some? then w.status.value else "failed" }

  // ── the reader ─────────────────────────────────────────────────────────────

  datatype Outcome = StillOpen | Closed(status: string) | DecodeError

  /** The reader between two turns: what it read, what it sent, its position, and how it stands. */
  datatype Reader = Reader(chunks: seq<string>, messages: seq<string>, position: nat, outcome: Outcome)

  const NEW_READER := Reader([], [], 0, StillOpen)

  /** Reads the rest of the log and sends it line by line. */
  function Polled(w: World, r: Reader): Reader
  {
    if !w.present then r
    else match ReadFrom(w.log, r.position)
      case None => r.(outcome := DecodeError)
      case Some(chunk) =>
        if chunk == "" then r
        else Reader(r.chunks + [chunk], r.messages + SplitLines(chunk), r.position + |Encode(chunk)|, r.outcome)
  }

  /** One turn of the loop: read the status, then the log, then leave if the status was terminal. */
  function Turned(w: World, round: Round, r: Reader): Reader
  {
    var status := StatusOf(ApplyAll(w, round.before));
    var polled := Polled(ApplyAll(ApplyAll(w, round.before), round.between), r);
    if polled.outcome == StillOpen && Terminal(status) then
      polled.(messages := polled.messages + ["[status] " + status], outcome := Closed(status))
    else polled
  }

  /** The reader after a schedule; once it has left, later rounds do not concern it. */
  function ReaderAfter(start: World, rounds: seq<Round>): Reader
  {
    if rounds == [] then NEW_READER
    else
      var init := rounds[..|rounds| - 1];
      var r := ReaderAfter(start, init);
      if r.outcome != StillOpen then r else Turned(WorldAfter(start, init), rounds[|rounds| - 1], r)
  }

  lemma {:induction false} LeftStaysLeft(start: World, rounds: seq<Round>, k: nat)
    requires k <= |rounds| && ReaderAfter(start, rounds[..k]).outcome != StillOpen
    ensures ReaderAfter(start, rounds) == ReaderAfter(start, rounds[..k])
  {
    if k < |rounds| {
      assert rounds[..|rounds| - 1][..k] == rounds[..k];
      LeftStaysLeft(start, rounds[..|rounds| - 1], k);
    } else {
      assert rounds[..k] == rounds;
    }
  }

  /** One message a line. */
  method SendLines(sent: seq<string>, lines: seq<string>) returns (messages: seq<string>)
    ensures messages == sent + lines
  {
    messages := sent;
    for i := 0 to |lines|
      invariant messages == sent + lines[..i]
    {
      messages := messages + [lines[i]];
    }
  }

  /** The read and the sends of one turn. */
  method SendNewLines(w: World, r: Reader) returns (next: Reader)
    ensures next == Polled(w, r)
  {
    next := r;
    if w.present {
      var chunk := ReadFrom(w.log, r.position);
      if chunk.None? { return r.(outcome := DecodeError); }
      if chunk.value != "" {
        next := next.(position := next.position + |Encode(chunk.value)|, chunks := next.chunks + [chunk.value]);
        var messages := SendLines(r.messages, SplitLines(chunk.value));
        next := next.(messages := messages);
      }
    }
  }

  /** The polling loop of `job_logs_ws`, against any schedule of the other processes. */
  method TailLog(start: World, rounds: seq<Round>) returns (r: Reader)
    ensures r == ReaderAfter(start, rounds)
  {
    r := NEW_READER;
    var w := start;
    assert rounds[..0] == [];
    for i := 0 to |rounds|
      invariant w == WorldAfter(start, rounds[..i]) && r == ReaderAfter(start, rounds[..i]) && r.outcome == StillOpen
    {
      assert rounds[..i + 1][..i] == rounds[..i];
      w := ApplyAll(w, rounds[i].before);
      var status := StatusOf(w);
      w := ApplyAll(w, rounds[i].between);
      r := SendNewLines(w, r);
      if r.outcome == StillOpen && Terminal(status) {
        r := r.(messages := r.messages + ["[status] " + status], outcome := Closed(status));
      }
      if r.outcome != StillOpen {
        LeftStaysLeft(start, rounds, i + 1);
        return;
      }
    }
    assert rounds[..|rounds|] == rounds;
  }

  // ── carriage returns ───────────────────────────────────────────────────────

  predicate HasCrLf(s: string)
  {
    |s| >= 2 && ((s[0] == '\r' && s[1] == '\n') || HasCrLf(s[1..]))
  }

  /** Every carriage return as a line feed. */
  function Unified(s: string): (r: string)
    ensures |r| == |s|
  {
    if s == "" then "" else [if s[0] == '\r' then '\n' else s[0]] + Unified(s[1..])
  }

  /** Advancing `position` by the length of the text *after* newline translation keeps it equal to the
      bytes read exactly when they hold no "\r\n"; otherwise it falls behind. */
  lemma {:induction false} PositionKeepsUpIffNoCrLf(s: string)
    ensures |Encode(Translated(s))| <= |Encode(s)|
    ensures |Encode(Translated(s))| == |Encode(s)| <==> !HasCrLf(s)
    decreases |s|
  {
    if s != "" {
      var t := s[1..];
      if s[0] == '\r' && |s| >= 2 && s[1] == '\n' {
        PositionKeepsUpIffNoCrLf(s[2..]);
        assert t[1..] == s[2..];
        assert ("\n" + Translated(s[2..]))[1..] == Translated(s[2..]);
      } else {
        PositionKeepsUpIffNoCrLf(t);
        assert Translated(s)[1..] == Translated(t);
      }
    }
  }

  lemma {:induction false} TranslatedIsUnified(s: string)
    requires !HasCrLf(s)
    ensures Translated(s) == Unified(s)
  {
    if s != "" { TranslatedIsUnified(s[1..]); }
  }

  lemma {:induction false} UnifiedAt(s: string, i: nat)
    requires i < |s|
    ensures Unified(s)[i] == if s[i] == '\r' then '\n' else s[i]
  {
    if i > 0 { UnifiedAt(s[1..], i - 1); }
  }

  /** Each "\r\n" becomes one "\n"; what stands around it is translated for itself. */
  lemma {:induction false} TranslatedAround(a: string, b: string)
    ensures Translated(a + ['\r', '\n'] + b) == Translated(a) + ['\n'] + Translated(b)
    decreases |a|
  {
    var s := a + ['\r', '\n'] + b;
    if a == "" {
      assert s[0] == '\r' && s[1] == '\n' && s[2..] == b;
    } else if a[0] != '\r' {
      assert s[1..] == a[1..] + ['\r', '\n'] + b;
      TranslatedAround(a[1..], b);
    } else if |a| >= 2 && a[1] == '\n' {
      assert s[2..] == a[2..] + ['\r', '\n'] + b;
      TranslatedAround(a[2..], b);
    } else {
      assert s[1..] == a[1..] + ['\r', '\n'] + b && s[1] != '\n';
      TranslatedAround(a[1..], b);
    }
  }

  lemma {:induction false} UnifiedConcat(a: string, b: string)
    ensures Unified(a + b) == Unified(a) + Unified(b)
  {
    if a == "" {
      assert a + b == b;
    } else {
      assert (a + b)[1..] == a[1..] + b;
      UnifiedConcat(a[1..], b);
    }
  }

  /** A text without "\r\n" has none in its two halves. */
  lemma {:induction false} HalvesHaveNoCrLf(a: string, b: string)
    requires !HasCrLf(a + b)
    ensures !HasCrLf(a) && !HasCrLf(b)
  {
    if a == "" {
      assert a + b == b;
    } else {
      assert (a + b)[1..] == a[1..] + b;
      HalvesHaveNoCrLf(a[1..], b);
    }
  }

  // ── lemmas about reading ───────────────────────────────────────────────────

  /** From the byte length of a prefix, reading gives exactly the rest, with its newlines unified and
      its byte length unchanged. */
  lemma ReadRest(sent: string, rest: string)
    requires !HasCrLf(rest)
    ensures ReadFrom(sent + rest, |Encode(sent)|) == Some(Unified(rest)) && |Encode(Unified(rest))| == |Encode(rest)|
  {
    EncodeConcat(sent, rest);
    assert Encode(sent + rest)[|Encode(sent)|..] == Encode(rest);
    DecodeEncode(rest);
    TranslatedIsUnified(rest);
    PositionKeepsUpIffNoCrLf(rest);
    if rest != "" { assert |Encode(rest)| > 0; }
  }

  lemma {:induction false} FlattenConcat(a: seq<string>, b: seq<string>)
    ensures Flatten(a + b) == Flatten(a) + Flatten(b)
  {
    if a == [] {
      assert a + b == b;
    } else {
      assert (a + b)[1..] == a[1..] + b;
      FlattenConcat(a[1..], b);
    }
  }

  /** The line breaks, one by one. */
  lemma LineBreaksAre(c: char)
    ensures IsLineBreak(c) <==> c in "\n\U{b}\U{c}\r\U{1c}\U{1d}\U{1e}\U{85}\U{2028}\U{2029}"
  {
  }

  predicate BreakFree(line: string) { forall i :: 0 <= i < |line| ==> !IsLineBreak(line[i]) }

  /** The lines with one break put back after each; the last may be left without. */
  function Respelled(lines: seq<string>, breaks: string): string
    requires |breaks| <= |lines| <= |breaks| + 1
  {
    if lines == [] then ""
    else if breaks == "" then lines[0]
    else lines[0] + [breaks[0]] + Respelled(lines[1..], breaks[1..])
  }

  /** Break-free lines, each followed by a break but for an unterminated last one that is not empty. */
  ghost predicate AreLines(lines: seq<string>, breaks: string)
  {
    && |breaks| <= |lines| <= |breaks| + 1 && (forall i :: 0 <= i < |lines| ==> BreakFree(lines[i]))
    && (forall i :: 0 <= i < |breaks| ==> IsLineBreak(breaks[i])) && (|lines| > |breaks| ==> lines[|lines| - 1] != "")
  }

  /** The text is its lines with a break put back after each of them. */
  lemma {:induction false} LinesCarryText(s: string) returns (breaks: string)
    ensures AreLines(SplitLines(s), breaks) && Respelled(SplitLines(s), breaks) == s
  {
    if s == "" {
      breaks := "";
    } else {
      var rest := SplitLines(s[1..]);
      var later := LinesCarryText(s[1..]);
      if IsLineBreak(s[0]) {
        breaks := [s[0]] + later;
        assert ([""] + rest)[1..] == rest && breaks[1..] == later;
      } else {
        breaks := later;
        assert [s[0]] + s[1..] == s;
        if rest != [] { FirstLineGrows(s[0], rest, later); }
      }
    }
  }

  lemma FirstLineGrows(c: char, lines: seq<string>, breaks: string)
    requires !IsLineBreak(c) && lines != [] && AreLines(lines, breaks)
    ensures var grown := [[c] + lines[0]] + lines[1..];
            AreLines(grown, breaks) && Respelled(grown, breaks) == [c] + Respelled(lines, breaks)
  {
    var grown := [[c] + lines[0]] + lines[1..];
    assert grown[1..] == lines[1..];
  }

  /** … and no other lines spell it. */
  lemma {:induction false} LinesReadBack(lines: seq<string>, breaks: string)
    requires AreLines(lines, breaks)
    ensures SplitLines(Respelled(lines, breaks)) == lines
    decreases |lines|
  {
    if lines != [] {
      if breaks == "" {
        assert lines == [lines[0]] && Respelled(lines, breaks) == lines[0];
        OneLine(lines[0]);
      } else {
        RestAreLines(lines, breaks);
        LinesReadBack(lines[1..], breaks[1..]);
        LineThenBreak(lines[0], breaks[0], Respelled(lines[1..], breaks[1..]));
      }
    }
  }

  lemma RestAreLines(lines: seq<string>, breaks: string)
    requires AreLines(lines, breaks) && breaks != ""
    ensures AreLines(lines[1..], breaks[1..]) && BreakFree(lines[0]) && IsLineBreak(breaks[0])
    ensures Respelled(lines, breaks) == lines[0] + [breaks[0]] + Respelled(lines[1..], breaks[1..])
  {
  }

  lemma {:induction false} OneLine(line: string)
    requires BreakFree(line) && line != ""
    ensures SplitLines(line) == [line]
  {
    if |line| > 1 {
      OneLine(line[1..]);
      assert [line[0]] + line[1..] == line;
    }
  }

  lemma {:induction false} LineThenBreak(line: string, c: char, rest: string)
    requires BreakFree(line) && IsLineBreak(c)
    ensures SplitLines(line + [c] + rest) == [line] + SplitLines(rest)
  {
    var s := line + [c] + rest;
    if line == "" {
      assert s[1..] == rest;
    } else {
      assert s[1..] == line[1..] + [c] + rest;
      LineThenBreak(line[1..], c, rest);
      assert [line[0]] + line[1..] == line;
    }
  }

  /** The log only grows. */
  lemma {:induction false} LogGrows(w: World, changes: seq<Change>)
    requires w.Valid()
    ensures ApplyAll(w, changes).Valid() && w.log <= ApplyAll(w, changes).log
    decreases |changes|
  {
    if changes != [] { LogGrows(Apply(w, changes[0]), changes[1..]); }
  }

  // ── delivery ───────────────────────────────────────────────────────────────

  /** The lines of the chunks, one chunk after the other. */
  function LinesOf(chunks: seq<string>): seq<string>
  {
    if chunks == [] then [] else LinesOf(chunks[..|chunks| - 1]) + SplitLines(chunks[|chunks| - 1])
  }

  /** The reader has sent exactly `log`, up to the form of its newlines: the chunks spell it, the
      messages are their lines, and the position is its byte length. */
  ghost predicate Sent(r: Reader, log: string)
  {
    Flatten(r.chunks) == Unified(log) && r.messages == LinesOf(r.chunks) && r.position == |Encode(log)|
  }

  /** A read sends the rest. */
  lemma PollCatchesUp(w: World, r: Reader, sent: string)
    requires w.Valid() && !HasCrLf(w.log) && sent <= w.log && Sent(r, sent)
    ensures Sent(Polled(w, r), w.log) && Polled(w, r).outcome == r.outcome
  {
    var rest := w.log[|sent|..];
    assert sent + rest == w.log;
    HalvesHaveNoCrLf(sent, rest);
    ReadRest(sent, rest);
    EncodeConcat(sent, rest);
    UnifiedConcat(sent, rest);
    var chunk := Unified(rest);
    ChunkAppends(r, sent, rest);
    if rest == "" { assert sent == w.log; }
  }

  lemma ChunkAppends(r: Reader, sent: string, rest: string)
    requires Sent(r, sent) && |Encode(Unified(rest))| == |Encode(rest)|
    ensures Sent(Reader(r.chunks + [Unified(rest)], r.messages + SplitLines(Unified(rest)),
                        r.position + |Encode(Unified(rest))|, r.outcome), sent + rest)
  {
    var chunk := Unified(rest);
    EncodeConcat(sent, rest);
    UnifiedConcat(sent, rest);
    FlattenConcat(r.chunks, [chunk]);
    FlattenOne(chunk);
    assert (r.chunks + [chunk])[..|r.chunks|] == r.chunks;
  }

  /** How many turns the reader made before it left, or all of them. */
  function Turns(start: World, rounds: seq<Round>): (k: nat)
    ensures k <= |rounds|
  {
    if rounds == [] then 0
    else
      var init := rounds[..|rounds| - 1];
      if ReaderAfter(start, init).outcome != StillOpen then Turns(start, init) else |rounds|
  }

  /** The log at the reader's last read. */
  function LastRead(start: World, rounds: seq<Round>): string
  {
    if rounds == [] then "" else WorldAfter(start, rounds).log
  }

  /** The state of the job at the status read of the last turn. */
  function StatusRead(start: World, rounds: seq<Round>): World
    requires rounds != []
  {
    ApplyAll(WorldAfter(start, rounds[..|rounds| - 1]), rounds[|rounds| - 1].before)
  }

  /** Delivery is complete: decoding never failed, the whole log of the last read has been sent, and
      if the reader left, it did so on a terminal status, announced last, with everything in the log
      when that status was read among what was sent. */
  ghost predicate Delivered(start: World, rounds: seq<Round>)
  {
    var r, made := ReaderAfter(start, rounds), rounds[..Turns(start, rounds)];
    match r.outcome
    case DecodeError => false
    case StillOpen => made == rounds && Sent(r, LastRead(start, rounds))
    case Closed(_) => made != [] && Finished(r, StatusRead(start, made), LastRead(start, made))
  }

  /** The reader left on the status it read in `at`, after sending `log`. */
  ghost predicate Finished(r: Reader, at: World, log: string)
  {
    && r.outcome == Closed(StatusOf(at)) && Terminal(StatusOf(at)) && at.log <= log
    && r.messages != [] && r.messages[|r.messages| - 1] == "[status] " + StatusOf(at)
    && Sent(r.(messages := r.messages[..|r.messages| - 1]), log)
  }

  lemma WorldsGrow(start: World, rounds: seq<Round>)
    requires rounds != [] && WorldAfter(start, rounds[..|rounds| - 1]).Valid()
    ensures WorldAfter(start, rounds).Valid()
    ensures WorldAfter(start, rounds[..|rounds| - 1]).log <= StatusRead(start, rounds).log <= WorldAfter(start, rounds).log
  {
    LogGrows(WorldAfter(start, rounds[..|rounds| - 1]), rounds[|rounds| - 1].before);
    LogGrows(StatusRead(start, rounds), rounds[|rounds| - 1].between);
  }

  lemma {:induction false} WorldStaysValid(start: World, rounds: seq<Round>)
    requires start.Valid()
    ensures WorldAfter(start, rounds).Valid()
  {
    if rounds != [] {
      WorldStaysValid(start, rounds[..|rounds| - 1]);
      WorldsGrow(start, rounds);
    }
  }

  /** A turn on a log without "\r\n": the rest is sent, and the reader goes on or finishes. */
  lemma TurnEnds(w: World, round: Round, r: Reader, sent: string)
    requires var at := ApplyAll(w, round.before);
             var now := ApplyAll(at, round.between);
             now.Valid() && !HasCrLf(now.log) && sent <= now.log && at.log <= now.log
    requires Sent(r, sent) && r.outcome == StillOpen
    ensures var at := ApplyAll(w, round.before);
            var t, log := Turned(w, round, r), ApplyAll(at, round.between).log;
            if Terminal(StatusOf(at)) then Finished(t, at, log) else t.outcome == StillOpen && Sent(t, log)
  {
    var at := ApplyAll(w, round.before);
    var now := ApplyAll(at, round.between);
    PollCatchesUp(now, r, sent);
    var polled := Polled(now, r);
    assert (polled.messages + ["[status] " + StatusOf(at)])[..|polled.messages|] == polled.messages;
  }

  /** A turn that can read the log ends the reader exactly when the status read was "success" or
      "failed", or the job's row was gone, which is announced as "failed". */
  lemma TurnLeavesIff(w: World, round: Round, r: Reader, status: string)
    requires r.outcome == StillOpen
    requires Polled(ApplyAll(ApplyAll(w, round.before), round.between), r).outcome == StillOpen
    ensures var row := ApplyAll(w, round.before).status;
            var t := Turned(w, round, r);
            && (t.outcome == StillOpen || t.outcome.Closed?)
            && (t.outcome == Closed(status) <==>
                 || (status == "success" && row == Some("success"))
                 || (status == "failed" && (row == Some("failed") || row == None)))
  {
  }

  /** One turn of a reader that has kept up. */
  lemma TurnDelivers(start: World, rounds: seq<Round>)
    requires rounds != [] && start.Valid() && !HasCrLf(WorldAfter(start, rounds).log)
    requires var init := rounds[..|rounds| - 1];
             ReaderAfter(start, init).outcome == StillOpen && Sent(ReaderAfter(start, init), LastRead(start, init))
    ensures Delivered(start, rounds)
  {
    var init := rounds[..|rounds| - 1];
    WorldStaysValid(start, init);
    WorldsGrow(start, rounds);
    assert LastRead(start, init) <= WorldAfter(start, init).log;
    TurnEnds(WorldAfter(start, init), rounds[|rounds| - 1], ReaderAfter(start, init), LastRead(start, init));
    assert rounds[..|rounds|] == rounds;
  }

  /** Every schedule whose log stays free of "\r\n" is delivered. */
  lemma {:induction false} ScheduleDelivers(start: World, rounds: seq<Round>)
    requires start.Valid() && !HasCrLf(WorldAfter(start, rounds).log)
    ensures Delivered(start, rounds)
  {
    if rounds != [] {
      var init := rounds[..|rounds| - 1];
      WorldStaysValid(start, init);
      WorldsGrow(start, rounds);
      var now, was := WorldAfter(start, rounds).log, WorldAfter(start, init).log;
      assert was + now[|was|..] == now;
      HalvesHaveNoCrLf(was, now[|was|..]);
      ScheduleDelivers(start, init);
      if ReaderAfter(start, init).outcome == StillOpen {
        TurnDelivers(start, rounds);
      } else {
        assert rounds[..Turns(start, rounds)] == init[..Turns(start, init)];
      }
    }
  }

  /** Reading a finished log in one turn advances by its translated length. */
  lemma OneTurnPosition(log: string)
    ensures var start := World(true, log, Some("running"));
            && WorldAfter(start, [Round([], [])]).log == log && ReaderAfter(start, [Round([], [])]).outcome == StillOpen
            && ReaderAfter(start, [Round([], [])]).position == |Encode(Translated(log))|
  {
    var start, one := World(true, log, Some("running")), Round([], []);
    assert [one][..0] == [];
    assert WorldAfter(start, [one]) == start;
    assert ReaderAfter(start, [one]) == Turned(start, one, NEW_READER);
    DecodeEncode(log);
    assert Encode(log)[0..] == Encode(log);
    if log != "" { assert |Encode(log)| > 0; } else { assert Translated(log) == ""; }
  }

  /** The exact condition: every schedule that ends with this log is delivered if and only if the log
      holds no carriage return followed by a line feed. */
  lemma DeliveredIffNoCrLf(log: string)
    ensures (forall start: World, rounds: seq<Round> ::
               start.Valid() && WorldAfter(start, rounds).log == log ==> Delivered(start, rounds))
            <==> !HasCrLf(log)
  {
    if HasCrLf(log) {
      var start, one := World(true, log, Some("running")), [Round([], [])];
      OneTurnPosition(log);
      PositionKeepsUpIffNoCrLf(log);
      assert !Delivered(start, one);
    } else {
      forall start: World, rounds: seq<Round> | start.Valid() && WorldAfter(start, rounds).log == log
        ensures Delivered(start, rounds)
      {
        ScheduleDelivers(start, rounds);
      }
    }
  }

  // ── what a viewer sees of it ───────────────────────────────────────────────

  /** The reader after one turn, and after two, on a log nobody writes to any more. */
  function AfterOneTurn(log: string): Reader { ReaderAfter(World(true, log, Some("running")), [Round([], [])]) }

  function AfterTwoTurns(log: string): Reader { ReaderAfter(World(true, log, Some("running")), [Round([], []), Round([], [])]) }

  lemma IdleTurns(log: string)
    ensures AfterOneTurn(log) == Polled(World(true, log, Some("running")), NEW_READER)
    ensures AfterTwoTurns(log) == Polled(World(true, log, Some("running")), AfterOneTurn(log))
  {
    var start, turn := World(true, log, Some("running")), Round([], []);
    OneTurnPosition(log);
    assert [turn][..0] == [] && [turn, turn][..1] == [turn];
    assert WorldAfter(start, []) == start && WorldAfter(start, [turn]) == start;
  }

  /** The first turn sends the whole text. */
  lemma FirstTurnSendsAll(log: string)
    ensures Flatten(AfterOneTurn(log).chunks) == Translated(log)
    ensures AfterOneTurn(log).messages == SplitLines(Translated(log))
    ensures AfterOneTurn(log).position == |Encode(Translated(log))| && AfterOneTurn(log).outcome == StillOpen
  {
    IdleTurns(log);
    OneTurnPosition(log);
    DecodeEncode(log);
    if log != "" {
      assert Encode(log) != [] && Encode(log)[0..] == Encode(log);
      FlattenOne(Translated(log));
    }
  }

  /** Sent more lines, or broke off. */
  ghost predicate SaysMore(now: Reader, before: Reader)
  {
    || now.outcome == DecodeError
    || exists more: string :: more != "" && now.messages == before.messages + SplitLines(more)
  }

  lemma PollBehind(w: World, r: Reader)
    requires w.present && r.position < |Encode(w.log)| && r.outcome == StillOpen
    ensures Polled(w, r) != r && SaysMore(Polled(w, r), r)
  {
    var left := Encode(w.log)[r.position..];
    if Decode(left).Some? {
      var more := Translated(Decode(left).value);
      var now := Polled(w, r);
      assert now.messages == r.messages + SplitLines(more);
      assert |now.chunks| == |r.chunks| + 1;
    }
  }

  /** A further turn on a finished log is silent if and only if the log holds no "\r\n".  Otherwise
      the viewer, who has the whole text, gets more lines, or the stream breaks off. */
  lemma IdleTurnIsSilentIff(log: string)
    ensures AfterTwoTurns(log) == AfterOneTurn(log) <==> !HasCrLf(log)
    ensures HasCrLf(log) ==> SaysMore(AfterTwoTurns(log), AfterOneTurn(log))
  {
    IdleTurns(log);
    FirstTurnSendsAll(log);
    PositionKeepsUpIffNoCrLf(log);
    if HasCrLf(log) {
      PollBehind(World(true, log, Some("running")), AfterOneTurn(log));
    }
  }

  /** Falling behind can end in the middle of a character: the second turn on this finished log cannot
      be decoded. */
  lemma FallingBehindBreaksDecoding()
    ensures var start, turn := World(true, "\r\n\U{e9}", Some("running")), Round([], []);
            ReaderAfter(start, [turn, turn]).outcome == DecodeError
  {
    var log := "\r\n\U{e9}";
    var start, turn := World(true, log, Some("running")), Round([], []);
    OneTurnPosition(log);
    assert [turn, turn][..1] == [turn];
    assert ReaderAfter(start, [turn, turn]) == Turned(start, turn, ReaderAfter(start, [turn]));
  }

}
