/** The reply that the caster prints for a connection, and how a relay on the other side reads it. */
module Handshake {
  import opened Options
  import opened Sequences

  datatype ReplyType = ToServer | ToClient | ToOther

  // ----- Printing -----

  const STATUS := "HTTP/1.1 200 OK\r\n"
  const VERSION := "Ntrip-Version: Ntrip/2.0\r\nServer: Ntrip "
  const DATE := "/2.0\r\nDate: "
  const NO_STORE := "Cache-Control: no-store, " + "no-cache, max-age=0\r\n"
  const NO_CACHE := "Pragma: no-cache\r\nConnection: close\r\n"
  const CODING := "Transfer-Encoding: "
  const CLOSE := "Connection: close\r\n\r\n"
  const CONTENT := "Content-Type: gnss/data\r\n\r\n"

  function Ending(to: ReplyType): string {
    "\r\n" + if to.ToClient? then NO_STORE + NO_CACHE else ""
  }

  /** Everything before the transfer coding. */
  function Opening(to: ReplyType, server: string, date: string): string {
    STATUS + (VERSION + server + DATE + date + Ending(to))
  }

  /** `server` is the name and version of the program, `date` the HTTP date. */
  function BuildReply(to: ReplyType, version2: bool, chunked: bool, server: string, date: string): string {
    if to.ToOther? then ""
    else if !version2 then "ICY 200 OK\r\n" + "\r\n"
    else
      Opening(to, server, date) + (if chunked then CODING + "chunked" + "\r\n" else "")
      + if to.ToClient? then CONTENT else CLOSE
  }

  // ----- Reading -----

  /** The first occurrence from `i` on. */
  function Find(s: string, sub: string, i: nat): Option<nat>
    decreases |s| - i
  {
    if i + |sub| > |s| then None
    else if OccursAt(s, sub, i) then Some(i)
    else if i == |s| then None
    else Find(s, sub, i + 1)
  }

  /** The text since the last line feed, if there is one. */
  function SinceLineFeed(s: string): Option<string> {
    if |s| == 0 then None
    else if s[|s| - 1] == '\n' then Some("")
    else
      var rest := SinceLineFeed(s[..|s| - 1]);
      if rest.None? then None else Some(rest.value + [s[|s| - 1]])
  }

  datatype Verdict = Refused | Accepted(version2: bool, chunked: bool)

  /** The word stands in a line that also names a transfer encoding before it. */
  predicate NamesChunked(resp: string) {
    var pos := Find(resp, "chunked", 0);
    && pos.Some? && pos.value <= |resp|
    && var line := SinceLineFeed(resp[..pos.value]);
       line.Some? && Find(line.value, "ransfer-", 0).Some?
  }

  function VerifyResponse(resp: string): Verdict {
    if "ICY 200 OK" <= resp then Accepted(false, false)
    else if "HTTP/1." <= resp then
      var space := Find(resp, " ", 0);
      if space.None? || space.value + 3 >= |resp| then Refused
      else if resp[space.value + 1..space.value + 4] != "200" then Refused
      else Accepted(true, NamesChunked(resp))
    else if "OK" <= resp then Accepted(false, false)
    else Refused
  }

  // ----- The relay understands the caster -----

  lemma {:induction false} FindsFirst(s: string, sub: string, i: nat, at: nat)
    requires i <= at && OccursAt(s, sub, at)
    requires forall j | i <= j < at :: !OccursAt(s, sub, j)
    ensures Find(s, sub, i) == Some(at)
    decreases at - i
  {
    if i < at {
      assert !OccursAt(s, sub, i);
      FindsFirst(s, sub, i + 1, at);
    }
  }

  lemma {:induction false} FindsNone(s: string, sub: string, i: nat)
    requires forall j: nat | i <= j <= |s| :: !OccursAt(s, sub, j)
    ensures Find(s, sub, i) == None
    decreases |s| - i
  {
    if i + |sub| <= |s| {
      assert !OccursAt(s, sub, i);
      if i < |s| {
        FindsNone(s, sub, i + 1);
      }
    }
  }

  lemma {:induction false} LineFeedThenLine(before: string, line: string)
    requires '\n' !in line
    ensures SinceLineFeed(before + "\n" + line) == Some(line)
  {
    var s := before + "\n" + line;
    if |line| > 0 {
      LineFeedThenLine(before, line[..|line| - 1]);
      assert s[..|s| - 1] == before + "\n" + line[..|line| - 1];
      assert line == line[..|line| - 1] + [line[|line| - 1]];
    }
  }

  predicate Plain(s: string) {
    forall i | 0 <= i < |s| :: s[i] != 'k'
  }

  /** No `k`, no word "chunked". */
  lemma WordNeedsK(s: string, j: nat)
    requires j + 4 < |s| ==> s[j + 4] != 'k'
    ensures !OccursAt(s, "chunked", j)
  {
    if j + 7 <= |s| {
      assert s[j..j + 7][4] == s[j + 4] && "chunked"[4] == 'k';
    }
  }

  /** The word "chunked" does not occur. */
  ghost predicate NoWord(s: string) {
    forall j: nat :: !OccursAt(s, "chunked", j)
  }

  predicate Outside(c: char) {
    c !in "chunked"
  }

  lemma PlainHasNoWord(s: string)
    requires Plain(s)
    ensures NoWord(s)
  {
    forall j: nat
      ensures !OccursAt(s, "chunked", j)
    {
      WordNeedsK(s, j);
    }
  }

  lemma NoWordHere(a: string, b: string, j: nat)
    requires NoWord(a) && NoWord(b)
    requires j < |a| < j + 7 ==> Outside(a[|a| - 1]) || (|b| > 0 && Outside(b[0]))
    ensures !OccursAt(a + b, "chunked", j)
  {
    if j + 7 <= |a + b| {
      var s := (a + b)[j..j + 7];
      if j + 7 <= |a| {
        assert !OccursAt(a, "chunked", j) && s == a[j..j + 7];
      } else if j >= |a| {
        assert !OccursAt(b, "chunked", j - |a|) && s == b[j - |a|..j - |a| + 7];
      } else {
        assert s[|a| - 1 - j] == a[|a| - 1] && s[|a| - j] == b[0];
        assert Outside(a[|a| - 1]) ==> s[|a| - 1 - j] != "chunked"[|a| - 1 - j];
        assert Outside(b[0]) ==> s[|a| - j] != "chunked"[|a| - j];
      }
    }
  }

  /** Two texts without the word have none together if a character outside the word parts them. */
  lemma JoinedHaveNoWord(a: string, b: string)
    requires NoWord(a) && NoWord(b) && |a| > 0 && |b| > 0
    requires Outside(a[|a| - 1]) || Outside(b[0])
    ensures NoWord(a + b)
  {
    forall j: nat
      ensures !OccursAt(a + b, "chunked", j)
    {
      NoWordHere(a, b, j);
    }
  }

  lemma BeforeTheWord(head: string, after: string, j: nat)
    requires NoWord(head) && |head| > 0 && Outside(head[|head| - 1]) && j < |head|
    ensures !OccursAt(head + "chunked" + after, "chunked", j)
  {
    var s := head + "chunked" + after;
    if j + 7 <= |head| {
      assert !OccursAt(head, "chunked", j) && s[j..j + 7] == head[j..j + 7];
    } else {
      assert s[j..j + 7][|head| - 1 - j] == head[|head| - 1] != "chunked"[|head| - 1 - j];
    }
  }

  lemma FindsWordAfter(head: string, after: string)
    requires NoWord(head) && |head| > 0 && Outside(head[|head| - 1])
    ensures Find(head + "chunked" + after, "chunked", 0) == Some(|head|)
  {
    var s := head + "chunked" + after;
    assert s[|head|..|head| + 7] == "chunked";
    forall j: nat | 0 <= j < |head|
      ensures !OccursAt(s, "chunked", j)
    {
      BeforeTheWord(head, after, j);
    }
    FindsFirst(s, "chunked", 0, |head|);
  }

  lemma CodingIsPlain()
    ensures Plain(CODING) && '\n' !in CODING && Find(CODING, "ransfer-", 0) == Some(1)
  {
    assert CODING[0] == 'T' && CODING[1..9] == "ransfer-";
    assert OccursAt(CODING, "ransfer-", 1) && !OccursAt(CODING, "ransfer-", 0);
    FindsFirst(CODING, "ransfer-", 0, 1);
  }

  lemma ChunkedIsNamed(before: string, after: string)
    requires NoWord(before) && |before| > 0 && before[|before| - 1] == '\n'
    ensures NamesChunked(before + CODING + "chunked" + after)
  {
    var s, front := before + CODING + "chunked" + after, before[..|before| - 1];
    CodingIsPlain();
    PlainHasNoWord(CODING);
    JoinedHaveNoWord(before, CODING);
    FindsWordAfter(before + CODING, after);
    assert s[..|before + CODING|] == before + CODING == front + "\n" + CODING;
    LineFeedThenLine(front, CODING);
  }

  lemma NothingNamed(s: string)
    requires NoWord(s)
    ensures !NamesChunked(s)
  {
    FindsNone(s, "chunked", 0);
  }

  lemma StatusIsOk(s: string)
    requires STATUS <= s
    ensures VerifyResponse(s) == Accepted(true, NamesChunked(s))
  {
    assert s[..7] == "HTTP/1.";
    assert s[0] == 'H';
    assert OccursAt(s, " ", 8);
    forall j | 0 <= j < 8
      ensures !OccursAt(s, " ", j)
    {
      assert s[j] == STATUS[j] && STATUS[j] != ' ';
    }
    FindsFirst(s, " ", 0, 8);
    assert s[9..12] == "200";
  }

  lemma PlainFirst()
    ensures Plain(STATUS) && Plain(VERSION)
  {}

  lemma PlainLines()
    ensures Plain(NO_STORE)
  {
    assert Plain("Cache-Control: no-store, ") && Plain("no-cache, max-age=0\r\n");
  }

  lemma PlainLast()
    ensures Plain(NO_CACHE) && NO_CACHE[|NO_CACHE| - 1] == '\n' && Plain(CLOSE) && Plain(CONTENT)
  {}

  /** A text between separators. */
  lemma Enclosed(a: string, text: string, b: string)
    requires Plain(a) && NoWord(text) && Plain(b) && |a| > 0 && |b| > 0
    requires Outside(a[|a| - 1]) && Outside(b[0])
    ensures NoWord(a + text + b)
  {
    PlainHasNoWord(a);
    PlainHasNoWord(b);
    if text == "" {
      JoinedHaveNoWord(a, b);
      assert a + text + b == a + b;
    } else {
      JoinedHaveNoWord(a, text);
      JoinedHaveNoWord(a + text, b);
    }
  }

  lemma ConstantsPart()
    ensures VERSION[|VERSION| - 1] == ' ' && DATE[0] == '/' && Plain(DATE) && DATE[|DATE| - 1] == ' '
    ensures Outside(' ') && Outside('/') && Outside('\n') && Outside('\r')
  {}

  lemma EndingIsPlain(to: ReplyType)
    ensures var e := Ending(to); Plain(e) && |e| > 0 && e[0] == '\r' && e[|e| - 1] == '\n'
  {
    PlainLines();
    PlainLast();
  }

  lemma TextsHaveNoWord(status: string, version: string, server: string, mid: string, date: string, last: string)
    requires Plain(status) && Plain(version) && Plain(mid) && Plain(last) && NoWord(server) && NoWord(date)
    requires |version| > 0 && Outside(version[|version| - 1])
    requires |mid| > 0 && Outside(mid[0]) && Outside(mid[|mid| - 1])
    requires |last| > 0 && last[0] == '\r'
    ensures NoWord(status + (version + server + mid + date + last))
  {
    Enclosed(status + version, server, mid);
    OpeningEnds(last, date);
    JoinedHaveNoWord(status + version + server + mid, date + last);
    assert status + (version + server + mid + date + last) == (status + version + server + mid) + (date + last);
  }

  lemma OpeningHasNoWord(to: ReplyType, server: string, date: string)
    requires NoWord(server) && NoWord(date)
    ensures var o := Opening(to, server, date); NoWord(o) && STATUS <= o && o[|o| - 1] == '\n'
  {
    PlainFirst();
    ConstantsPart();
    EndingIsPlain(to);
    TextsHaveNoWord(STATUS, VERSION, server, DATE, date, Ending(to));
  }

  lemma OpeningEnds(last: string, date: string)
    requires Plain(last) && NoWord(date) && |last| > 0 && last[0] == '\r'
    ensures NoWord(date + last)
  {
    PlainHasNoWord(last);
    if date == "" {
      assert date + last == last;
    } else {
      JoinedHaveNoWord(date, last);
    }
  }

  lemma ChunkedReply(o: string, coding: string, word: string, tail: string)
    requires NoWord(o) && STATUS <= o && o[|o| - 1] == '\n' && coding == CODING && word == "chunked"
    ensures VerifyResponse(o + (coding + word + "\r\n") + tail) == Accepted(true, true)
  {
    var s := o + (coding + word + "\r\n") + tail;
    assert s == o + coding + word + ("\r\n" + tail);
    assert STATUS <= s by {
      assert s[..|o|] == o;
    }
    StatusIsOk(s);
    ChunkedIsNamed(o, "\r\n" + tail);
  }

  lemma PlainReply(o: string, tail: string)
    requires NoWord(o) && STATUS <= o && o[|o| - 1] == '\n' && Plain(tail) && |tail| > 0
    ensures VerifyResponse(o + "" + tail) == Accepted(true, false)
  {
    var s := o + "" + tail;
    assert s[..|o|] == o;
    StatusIsOk(s);
    PlainHasNoWord(tail);
    JoinedHaveNoWord(o, tail);
    assert s == o + tail;
    NothingNamed(s);
  }

  /** The relay reads every reply of the caster as what it says: accepted, with its version, and chunked
      exactly when it is chunked. The program's name and the date must not contain the word that the
      relay looks for. */
  lemma ReplyIsUnderstood(to: ReplyType, version2: bool, chunked: bool, server: string, date: string)
    requires !to.ToOther? && NoWord(server) && NoWord(date)
    ensures VerifyResponse(BuildReply(to, version2, chunked, server, date))
         == Accepted(version2, version2 && chunked)
  {
    if version2 {
      var o, tail := Opening(to, server, date), if to.ToClient? then CONTENT else CLOSE;
      OpeningHasNoWord(to, server, date);
      PlainLast();
      if chunked {
        ChunkedReply(o, CODING, "chunked", tail);
      } else {
        PlainReply(o, tail);
      }
    } else {
      assert BuildReply(to, version2, chunked, server, date)[..10] == "ICY 200 OK";
    }
  }

  // ----- The relay's verdict on any reply -----

  lemma FirstBlank(v: string, rest: string)
    requires ' ' !in v
    ensures Find(v + (" " + rest), " ", 0) == Some(|v|) && Find(v, " ", 0) == None
  {
    var s := v + (" " + rest);
    assert s[|v|..|v| + 1] == " ";
    forall j: nat | j < |v|
      ensures !OccursAt(s, " ", j) && !OccursAt(v, " ", j)
    {
      assert s[j] == v[j] != ' ' && s[j..j + 1][0] == s[j] && v[j..j + 1][0] == v[j];
    }
    FindsFirst(s, " ", 0, |v|);
    FindsNone(v, " ", 0);
  }

  /** An HTTP reply is accepted exactly if the three characters behind the first blank are 200. */
  lemma HttpAcceptedExactly(v: string, code: string, tail: string)
    requires "HTTP/1." <= v && ' ' !in v && |code| == 3
    ensures VerifyResponse(v + (" " + (code + tail))).Accepted? <==> code == "200"
    ensures code == "200" ==> VerifyResponse(v + (" " + (code + tail))).version2
  {
    hide Find, NamesChunked;
    var s := v + (" " + (code + tail));
    FirstBlank(v, code + tail);
    assert s[..7] == v[..7] == "HTTP/1." && s[0] == 'H';
    assert s[|v| + 1..|v| + 4] == code;
  }

  /** Cut before the code, it is refused. */
  lemma HttpCutShort(v: string, code: string)
    requires "HTTP/1." <= v && ' ' !in v && |code| < 3
    ensures VerifyResponse(v).Refused? && VerifyResponse(v + (" " + code)).Refused?
  {
    hide Find, NamesChunked;
    var s := v + (" " + code);
    FirstBlank(v, code);
    assert s[..7] == v[..7] == "HTTP/1." && s[0] == 'H' && v[0] == 'H';
  }

  /** The replies of the old version are accepted, without chunking; any other is refused, among them the
      source table that stands for a mount point that does not exist. */
  lemma OldReplies(tail: string, resp: string)
    requires !("ICY 200 OK" <= resp) && !("HTTP/1." <= resp) && !("OK" <= resp)
    ensures VerifyResponse("ICY 200 OK" + tail) == Accepted(false, false)
    ensures VerifyResponse("OK" + tail) == Accepted(false, false)
    ensures VerifyResponse(resp).Refused? && VerifyResponse("SOURCETABLE 200 OK" + tail).Refused?
  {
    var icy, ok, table := "ICY 200 OK" + tail, "OK" + tail, "SOURCETABLE 200 OK" + tail;
    assert icy[..10] == "ICY 200 OK" && ok[..2] == "OK";
    assert ok[0] == 'O' && table[0] == 'S' && "ICY 200 OK"[0] == 'I' && "HTTP/1."[0] == 'H';
  }

  /** The reply is chunked exactly if the line of the first word "chunked" names a transfer encoding before
      it. */
  lemma ChunkedExactly(before: string, line: string, tail: string)
    requires '\n' !in line
    requires forall j: nat | j < |before + "\n" + line| :: !OccursAt(before + "\n" + line + "chunked" + tail, "chunked", j)
    ensures NamesChunked(before + "\n" + line + "chunked" + tail) <==> exists j: nat :: OccursAt(line, "ransfer-", j)
  {
    hide SinceLineFeed;
    var front := before + "\n" + line;
    var s := front + "chunked" + tail;
    assert s[|front|..|front| + 7] == "chunked" && s[..|front|] == front;
    FindsFirst(s, "chunked", 0, |front|);
    LineFeedThenLine(before, line);
    FoundExactly(line, "ransfer-");
  }

  lemma FoundExactly(s: string, sub: string)
    ensures Find(s, sub, 0).Some? <==> exists j: nat :: OccursAt(s, sub, j)
  {
    if j: nat :| OccursAt(s, sub, j) {
      FoundBefore(s, sub, 0, j);
    } else {
      FindsNone(s, sub, 0);
    }
  }

  lemma {:induction false} FoundBefore(s: string, sub: string, i: nat, j: nat)
    requires i <= j && OccursAt(s, sub, j)
    ensures Find(s, sub, i).Some?
    decreases j - i
  {
    if i < j {
      FoundBefore(s, sub, i + 1, j);
    }
  }

  lemma {:induction false} NoLineYet(s: string)
    requires '\n' !in s
    ensures SinceLineFeed(s).None?
  {
    if |s| > 0 {
      NoLineYet(s[..|s| - 1]);
    }
  }

  /** On the first line the word means nothing. */
  lemma FirstLineIsNotChunked(line: string, tail: string)
    requires '\n' !in line && forall j: nat | j < |line| :: !OccursAt(line + "chunked" + tail, "chunked", j)
    ensures !NamesChunked(line + "chunked" + tail)
  {
    var s := line + "chunked" + tail;
    assert s[|line|..|line| + 7] == "chunked" && s[..|line|] == line;
    FindsFirst(s, "chunked", 0, |line|);
    NoLineYet(line);
  }

  // ----- The caster's reply, line by line -----

  function Lines(lines: seq<string>): string {
    if |lines| == 0 then "" else lines[0] + "\r\n" + Lines(lines[1..])
  }

  /** The lines that both replies start with. */
  function HeadLines(server: string, date: string): seq<string> {
    ["HTTP/1.1 200 OK", "Ntrip-Version: Ntrip/2.0", "Server: Ntrip " + server + "/2.0", "Date: " + date]
  }

  function CodingLines(chunked: bool): seq<string> {
    if chunked then ["Transfer-Encoding: chunked"] else []
  }

  lemma ReplyToServer(chunked: bool, server: string, date: string)
    ensures BuildReply(ToServer, true, chunked, server, date)
         == Lines(HeadLines(server, date) + (CodingLines(chunked) + ["Connection: close", ""]))
  {
    hide Lines, Opening, HeadLines, CodingLines;
    LinesAppend(HeadLines(server, date), CodingLines(chunked) + ["Connection: close", ""]);
    LinesAppend(CodingLines(chunked), ["Connection: close", ""]);
    OpeningLines(ToServer, server, date);
    CodingText(chunked);
    LastLines();
    Assembled(Lines(HeadLines(server, date)), "", Lines(CodingLines(chunked)), CLOSE);
  }

  lemma ReplyToClient(chunked: bool, server: string, date: string)
    ensures BuildReply(ToClient, true, chunked, server, date)
         == Lines(HeadLines(server, date)
                  + (["Cache-Control: no-store, no-cache, max-age=0", "Pragma: no-cache", "Connection: close"]
                     + (CodingLines(chunked) + ["Content-Type: gnss/data", ""])))
  {
    hide Lines, Opening, HeadLines, CodingLines;
    var cache := ["Cache-Control: no-store, no-cache, max-age=0", "Pragma: no-cache", "Connection: close"];
    var rest := CodingLines(chunked) + ["Content-Type: gnss/data", ""];
    LinesAppend(HeadLines(server, date), cache + rest);
    LinesAppend(cache, rest);
    LinesAppend(CodingLines(chunked), ["Content-Type: gnss/data", ""]);
    OpeningLines(ToClient, server, date);
    CacheLines();
    CodingText(chunked);
    LastLines();
    Assembled(Lines(HeadLines(server, date)), NO_STORE + NO_CACHE, Lines(CodingLines(chunked)), CONTENT);
  }

  lemma Assembled(head: string, cache: string, coding: string, last: string)
    ensures (head + cache) + coding + last == head + (cache + (coding + last))
    ensures cache == "" ==> head + cache == head && cache + (coding + last) == coding + last
  {}

  lemma {:induction false} LinesAppend(a: seq<string>, b: seq<string>)
    ensures Lines(a + b) == Lines(a) + Lines(b)
  {
    if |a| == 0 {
      assert a + b == b;
    } else {
      assert (a + b)[1..] == a[1..] + b;
      LinesAppend(a[1..], b);
    }
  }

  lemma OneLine(a: string)
    ensures Lines([a]) == a + "\r\n"
  {
    assert [a][1..] == [];
    assert Lines([a]) == a + "\r\n" + "";
  }

  lemma TwoLines(a: string, b: string)
    ensures Lines([a, b]) == (a + "\r\n") + (b + "\r\n")
  {
    assert [a, b] == [a] + [b];
    LinesAppend([a], [b]);
    OneLine(a);
    OneLine(b);
  }

  lemma FourLines(a: string, b: string, c: string, d: string)
    ensures Lines([a, b, c, d]) == ((a + "\r\n") + (b + "\r\n")) + ((c + "\r\n") + (d + "\r\n"))
  {
    assert [a, b, c, d] == [a, b] + [c, d];
    LinesAppend([a, b], [c, d]);
    TwoLines(a, b);
    TwoLines(c, d);
  }

  lemma CodingText(chunked: bool)
    ensures Lines(CodingLines(chunked)) == if chunked then CODING + "chunked" + "\r\n" else ""
  {
    hide Lines;
    OneLine("Transfer-Encoding: chunked");
    NoLines();
    assert CODING + "chunked" == "Transfer-Encoding: chunked";
  }

  lemma NoLines()
    ensures Lines([]) == ""
  {}

  lemma LastLines()
    ensures Lines(["Connection: close", ""]) == CLOSE && Lines(["Content-Type: gnss/data", ""]) == CONTENT
  {
    hide Lines;
    TwoLines("Connection: close", "");
    TwoLines("Content-Type: gnss/data", "");
  }

  lemma CacheLines()
    ensures Lines(["Cache-Control: no-store, no-cache, max-age=0", "Pragma: no-cache", "Connection: close"]) == NO_STORE + NO_CACHE
  {
    hide Lines;
    ThreeLines("Cache-Control: no-store, no-cache, max-age=0", "Pragma: no-cache", "Connection: close");
    NoStoreText();
    NoCacheText();
  }

  lemma ThreeLines(a: string, b: string, c: string)
    ensures Lines([a, b, c]) == (a + "\r\n") + ((b + "\r\n") + (c + "\r\n"))
  {
    assert [a, b, c] == [a] + [b, c];
    LinesAppend([a], [b, c]);
    OneLine(a);
    TwoLines(b, c);
  }

  lemma NoCacheText()
    ensures NO_CACHE == ("Pragma: no-cache" + "\r\n") + ("Connection: close" + "\r\n")
  {}

  lemma NoStoreText()
    ensures NO_STORE == "Cache-Control: no-store, no-cache, max-age=0" + "\r\n"
  {
    assert "Cache-Control: no-store, " + "no-cache, max-age=0\r\n" == "Cache-Control: no-store, no-cache, max-age=0" + "\r\n";
  }

  lemma OpeningLines(to: ReplyType, server: string, date: string)
    ensures Opening(to, server, date) == Lines(HeadLines(server, date)) + if to.ToClient? then NO_STORE + NO_CACHE else ""
  {
    hide Lines;
    FourLines("HTTP/1.1 200 OK", "Ntrip-Version: Ntrip/2.0", "Server: Ntrip " + server + "/2.0", "Date: " + date);
    HeadTexts();
    Opened("HTTP/1.1 200 OK", "Ntrip-Version: Ntrip/2.0", "Server: Ntrip ", "/2.0", "Date: ", "\r\n", server, date,
           if to.ToClient? then NO_STORE + NO_CACHE else "");
    if !to.ToClient? {
      assert "\r\n" + "" == "\r\n";
    }
  }

  lemma HeadTexts()
    ensures STATUS == "HTTP/1.1 200 OK" + "\r\n" && VERSION == "Ntrip-Version: Ntrip/2.0" + "\r\n" + "Server: Ntrip "
    ensures DATE == "/2.0" + "\r\n" + "Date: "
  {}

  lemma Opened(a: string, b: string, c: string, v: string, d: string, crlf: string, server: string, date: string, cache: string)
    ensures (a + crlf) + ((b + crlf + c) + server + (v + crlf + d) + date + (crlf + cache))
         == (((a + crlf) + (b + crlf)) + (((c + server + v) + crlf) + ((d + date) + crlf))) + cache
  {}

  /** The first version has one answer for servers and clients; nobody else is answered. */
  lemma OtherReplies(to: ReplyType, version2: bool, chunked: bool, server: string, date: string)
    ensures to.ToServer? || to.ToClient? ==> BuildReply(to, false, chunked, server, date) == "ICY 200 OK\r\n\r\n"
    ensures BuildReply(ToOther, version2, chunked, server, date) == ""
  {}
}
