/** What a listener answers, spelled out: which request lines reach which handler, what the headers leave in
    the record, and every answer of the three handlers, for requests that anybody may have written and for
    those that a relay prints. */
module RequestLaws {
  import opened EvBuffer
  import opened Options
  import opened RequestPrinter
  import opened RequestParser
  import opened RequestRoundTrip
  import opened Sequences

  // ----- The request line -----

  const LOWER := "abcdefghijklmnopqrstuvwxyz"
  const UPPER := "ABCDEFGHIJKLMNOPQRSTUVWXYZ"
  const DIGITS := "0123456789"

  lemma LowerCase(c: char)
    ensures c in LOWER <==> 'a' <= c <= 'z'
  {
    if 'a' <= c <= 'z' {
      assert LOWER[c as int - 'a' as int] == c;
    }
  }

  lemma UpperCase(c: char)
    ensures c in UPPER <==> 'A' <= c <= 'Z'
  {
    if 'A' <= c <= 'Z' {
      assert UPPER[c as int - 'A' as int] == c;
    }
  }

  lemma Digit(c: char)
    ensures c in DIGITS <==> '0' <= c <= '9'
  {
    if '0' <= c <= '9' {
      assert DIGITS[c as int - '0' as int] == c;
    }
  }

  /** Letters, digits, and three other characters may name a mount point; so may nothing at all. */
  lemma MountNames(mount: string)
    ensures ValidMount(mount) <==> forall i | 0 <= i < |mount| ::
              mount[i] in LOWER || mount[i] in UPPER || mount[i] in DIGITS || mount[i] in "_.-"
  {
    forall i | 0 <= i < |mount|
      ensures MountChar(mount[i])
         <==> mount[i] in LOWER || mount[i] in UPPER || mount[i] in DIGITS || mount[i] in "_.-"
    {
      LowerCase(mount[i]);
      UpperCase(mount[i]);
      Digit(mount[i]);
    }
  }

  /** A word of the request line: anything but blanks, bars, line ends and NULs, and no white space first. */
  lemma WordsExactly(w: string)
    ensures Word(w) && OneLine(w) <==> |w| > 0 && w[0] !in "\t\r\U{000B}\U{000C}"
                                       && forall i | 0 <= i < |w| :: w[i] !in " |\n\0"
  {}

  /** What may stand between two words: a blank, and white space of any kind. */
  predicate Gap(g: string) {
    |g| > 0 && g[0] == ' ' && forall i | 0 <= i < |g| :: g[i] in " \t\r\U{000B}\U{000C}"
  }

  /** Behind the last word that is found: nothing, a bar, or only a gap. */
  predicate Halt(rest: string) {
    rest == "" || rest[0] == '|' || Gap(rest)
  }

  lemma RunOf(word: string, rest: string)
    requires Word(word) && (rest == "" || rest[0] == ' ' || rest[0] == '|')
    ensures Run(word + rest) == |word| && (word + rest)[..|word|] == word && (word + rest)[|word|..] == rest
  {
    assert forall i | 0 <= i < |word| :: (word + rest)[i] == word[i];
    RunUnique(word + rest, |word|);
  }

  lemma ScanOn(word: string, gap: string, next: string, n: nat)
    requires Word(word) && Gap(gap) && next != "" && !IsSpace(next[0]) && n > 0
    ensures ScanRuns(word + (gap + next), n) == [word] + ScanRuns(next, n - 1)
  {
    RunOf(word, gap + next);
    WhiteSkipped(gap, next);
  }

  lemma NothingFound(s: string, n: nat)
    requires s == "" || s[0] == '|'
    ensures ScanRuns(s, n) == seq(n, _ => "")
  {}

  lemma ScanHalt(word: string, rest: string, n: nat)
    requires Word(word) && Halt(rest) && n > 0
    ensures ScanRuns(word + rest, n) == [word] + seq(n - 1, _ => "")
  {
    RunOf(word, rest);
    if Gap(rest) {
      WhiteSkipped(rest, "");
      assert rest + "" == rest;
    } else {
      assert SkipSpace(rest) == rest;
    }
    NothingFound(SkipSpace(rest), n - 1);
  }

  lemma ScanFourth(word: string, rest: string, n: nat)
    requires Word(word) && (rest == "" || rest[0] == ' ' || rest[0] == '|') && n == 1
    ensures ScanRuns(word + rest, n) == [word]
  {
    RunOf(word, rest);
  }

  lemma NotEmpty(a: string)
    requires Word(a)
    ensures a != ""
  {}

  lemma FirstOf(a: string, b: string)
    requires Word(a)
    ensures a + b != "" && !IsSpace((a + b)[0])
  {}

  lemma ScanTwo(a: string, g: string, b: string, rest: string)
    requires Word(a) && Word(b) && Gap(g) && Halt(rest)
    ensures ScanRuns(a + (g + (b + rest)), 4) == [a, b, "", ""]
  {
    hide Word, Gap, Halt, ScanRuns, IsSpace;
    FirstOf(b, rest);
    ScanOn(a, g, b + rest, 4);
    ScanHalt(b, rest, 3);
    assert seq(2, _ => "") == ["", ""];
    assert [a] + ([b] + ["", ""]) == [a, b, "", ""];
  }

  lemma ScanThreeOf(a: string, g: string, b: string, h: string, c: string, rest: string)
    requires Word(a) && Word(b) && Word(c) && Gap(g) && Gap(h) && Halt(rest)
    ensures ScanRuns(a + (g + (b + (h + (c + rest)))), 4) == [a, b, c, ""]
  {
    hide Word, Gap, Halt, ScanRuns, IsSpace;
    FirstOf(b, h + (c + rest));
    FirstOf(c, rest);
    ScanOn(a, g, b + (h + (c + rest)), 4);
    ScanOn(b, h, c + rest, 3);
    ScanHalt(c, rest, 2);
    assert seq(1, _ => "") == [""];
    assert [a] + ([b] + ([c] + [""])) == [a, b, c, ""];
  }

  lemma ScanFourOf(a: string, g: string, b: string, h: string, c: string, k: string, d: string, rest: string)
    requires Word(a) && Word(b) && Word(c) && Word(d) && Gap(g) && Gap(h) && Gap(k)
    requires rest == "" || rest[0] == ' ' || rest[0] == '|'
    ensures ScanRuns(a + (g + (b + (h + (c + (k + (d + rest)))))), 4) == [a, b, c, d]
  {
    hide Word, Gap, ScanRuns, IsSpace;
    FirstOf(b, h + (c + (k + (d + rest))));
    FirstOf(c, k + (d + rest));
    FirstOf(d, rest);
    ScanOn(a, g, b + (h + (c + (k + (d + rest)))), 4);
    ScanOn(b, h, c + (k + (d + rest)), 3);
    ScanOn(c, k, d + rest, 2);
    ScanFourth(d, rest, 1);
    assert [a] + ([b] + ([c] + [d])) == [a, b, c, d];
  }

  /** Only SOURCE takes an address without a version, and only if the address does not look like one. */
  lemma OneOrTwoWords(a: string, g: string, b: string, rest: string)
    requires Word(a) && Word(b) && Gap(g) && Halt(rest) && '\0' !in a + (g + (b + rest)) && '\0' !in a + rest
    ensures RouteOf(a + rest) == Bad
    ensures RouteOf(a + (g + (b + rest)))
         == if a == "SOURCE" && b != "HTTP/1.1" && b != "HTTP/1.0" then Source(b, "") else Bad
  {
    hide Word, Gap, Halt, ScanRuns, CStr;
    CStrWhole(a + (g + (b + rest)));
    CStrWhole(a + rest);
    ScanTwo(a, g, b, rest);
    ScanHalt(a, rest, 4);
    assert seq(3, _ => "") == ["", "", ""];
    assert [a] + ["", "", ""] == [a, "", "", ""];
    NotEmpty(b);
    NamesDiffer();
    VersionsAreWords();
  }

  /** With three words the last one is the version; SOURCE also takes a password and an address. */
  lemma ThreeWords(a: string, g: string, b: string, h: string, c: string, rest: string)
    requires Word(a) && Word(b) && Word(c) && Gap(g) && Gap(h) && Halt(rest)
    requires '\0' !in a + (g + (b + (h + (c + rest))))
    ensures var route, version := RouteOf(a + (g + (b + (h + (c + rest))))), c == "HTTP/1.1" || c == "HTTP/1.0";
            && (a == "SOURCE" && version ==> route == Source(b, ""))
            && (a == "SOURCE" && !version ==> route == Source(c, b))
            && (a == "GET" && version ==> route == Get(b))
            && (a == "POST" && version ==> route == Post(b))
            && (a != "SOURCE" && (!version || (a != "GET" && a != "POST")) ==> route == Bad)
  {
    hide Word, Gap, Halt, ScanRuns, CStr;
    CStrWhole(a + (g + (b + (h + (c + rest)))));
    ScanThreeOf(a, g, b, h, c, rest);
    NotEmpty(c);
    NamesDiffer();
    VersionsAreWords();
  }

  /** With four words SOURCE has a password, an address and the version; the other methods ignore the fourth. */
  lemma FourWords(a: string, g: string, b: string, h: string, c: string, k: string, d: string, rest: string)
    requires Word(a) && Word(b) && Word(c) && Word(d) && Gap(g) && Gap(h) && Gap(k)
    requires rest == "" || rest[0] == ' ' || rest[0] == '|'
    requires '\0' !in a + (g + (b + (h + (c + (k + (d + rest))))))
    ensures var route := RouteOf(a + (g + (b + (h + (c + (k + (d + rest)))))));
            && (a == "SOURCE" ==> route == if d == "HTTP/1.1" || d == "HTTP/1.0" then Source(c, b) else Bad)
            && (a == "GET" ==> route == if c == "HTTP/1.1" || c == "HTTP/1.0" then Get(b) else Bad)
            && (a == "POST" ==> route == if c == "HTTP/1.1" || c == "HTTP/1.0" then Post(b) else Bad)
            && (a != "SOURCE" && a != "GET" && a != "POST" ==> route == Bad)
  {
    hide Word, Gap, ScanRuns, CStr;
    CStrWhole(a + (g + (b + (h + (c + (k + (d + rest)))))));
    ScanFourOf(a, g, b, h, c, k, d, rest);
    NamesDiffer();
    NotEmpty(d);
  }

  lemma NamesDiffer()
    ensures "SOURCE" != "GET" && "SOURCE" != "POST" && "GET" != "POST"
  {}

  lemma VersionsAreWords()
    ensures "HTTP/1.1" != "" && "HTTP/1.0" != "" && "HTTP/1.1" != "HTTP/1.0"
  {}

  /** A line whose first character ends a word, and what stands behind a NUL, mean nothing. */
  lemma NoWordNoRoute(line: string, junk: string)
    ensures line != "" && line[0] in " |\n" ==> RouteOf(line) == Bad
    ensures '\0' !in line ==> RouteOf(line + "\0" + junk) == RouteOf(line)
  {
    if line != "" && line[0] in " |\n" {
      assert CStr(line)[0] == line[0];
      assert Run(CStr(line)) == 0;
      assert ScanRuns(CStr(line), 4) == seq(4, _ => "");
    }
    if '\0' !in line {
      CutAtNul(line, junk);
      CStrWhole(line);
    }
  }

  lemma CutAtNul(line: string, junk: string)
    requires '\0' !in line
    ensures CStr(line + "\0" + junk) == line
  {
    CStrGoesOn(line, "\0" + junk);
    assert line + ("\0" + junk) == line + "\0" + junk;
  }

  // ----- The line taken off the buffer -----

  /** A line ends at a line feed, with or without a carriage return before it. */
  lemma LinesExactly(text: string, rest: string)
    requires '\n' !in text
    ensures ReadLine(text) == NoLine
    ensures ReadLine(text + "\r\n" + rest) == Line(text, rest)
    ensures (text == "" || text[|text| - 1] != '\r') ==> ReadLine(text + "\n" + rest) == Line(text, rest)
  {
    ReadPrintedLine(text, rest);
    var buf := text + "\n" + rest;
    assert forall k | 0 <= k < |text| :: buf[k] == text[k];
    FindCharUnique(buf, '\n', |text|);
    assert buf[..|text|] == text && buf[|text| + 1..] == rest;
  }

  /** A request line has 9 to 255 characters. One without a line end is only taken if the listener allows
      it and it is shorter than 255, and then nothing is left. */
  lemma LengthsExactly(opt: ListenerOpt, core: Core, b64: Base64, line: string, rest: string)
    requires '\n' !in line
    ensures |line| < 9 || |line| > 255 ==>
              Process(opt, core, b64, line + "\r\n" + rest) == Parsed(Unsupported, rest)
    ensures 9 <= |line| <= 255 ==>
              Process(opt, core, b64, line + "\r\n" + rest) == HandleRoute(RouteOf(line), opt, core, b64, rest)
    ensures !opt.headerNoCrlf || |line| >= 255 ==> Process(opt, core, b64, line) == Parsed(Unsupported, line)
    ensures opt.headerNoCrlf && |line| < 9 ==> Process(opt, core, b64, line) == Parsed(Unsupported, "")
    ensures opt.headerNoCrlf && 9 <= |line| < 255 ==>
              Process(opt, core, b64, line) == HandleRoute(RouteOf(line), opt, core, b64, "")
  {
    hide ReadLine, RouteOf, HandleRoute;
    LinesExactly(line, rest);
  }

  // ----- The address -----

  lemma SplitAt(p: string, mount: string, para: string)
    requires '?' !in mount
    ensures p == "/" + mount ==> FindChar(p, '?') == |p| && p[1..] == mount
    ensures p == "/" + mount + "?" + para ==>
              FindChar(p, '?') == 1 + |mount| && p[1..1 + |mount|] == mount && p[2 + |mount|..] == para
  {
    if p == "/" + mount {
      assert '?' !in p;
    }
    if p == "/" + mount + "?" + para {
      assert forall k | 0 <= k < 1 + |mount| :: p[k] == ("/" + mount)[k];
      FindCharUnique(p, '?', 1 + |mount|);
    }
  }

  /** The address is cut at the first question mark; one slash in front of it may be missing. */
  lemma AddressExactly(mount: string, para: string)
    requires '?' !in mount
    ensures ExtractPath("/" + mount) == mount && ExtractPara("/" + mount) == ""
    ensures ExtractPath("/" + mount + "?" + para) == mount && ExtractPara("/" + mount + "?" + para) == para
    ensures mount == "" || mount[0] != '/' ==>
              && ExtractPath(mount) == mount && ExtractPara(mount) == ""
              && ExtractPath(mount + "?" + para) == mount && ExtractPara(mount + "?" + para) == para
  {
    SplitAt("/" + mount, mount, para);
    SplitAt("/" + mount + "?" + para, mount, para);
    assert "/" + (mount + "?" + para) == "/" + mount + "?" + para;
    assert Rooted("/" + mount) == "/" + mount;
    assert Rooted("/" + mount + "?" + para) == "/" + mount + "?" + para;
  }

  // ----- The headers -----

  /** The character behind the colon is skipped, whatever it is; a key without a value has an empty one. */
  lemma StoredExactly(key: string, skipped: char, value: string, item: map<string, string>)
    requires ':' !in key
    ensures Store(item, key) == item
    ensures Store(item, key + ":") == item[key := ""]
    ensures Store(item, key + ":" + [skipped] + value) == item[key := value]
  {
    assert forall line: string | key + ":" <= line :: line[..|key|] == key && line[|key|] == ':';
    FindCharUnique(key + ":", ':', |key|);
    var line := key + ":" + [skipped] + value;
    assert forall k | 0 <= k < |key| :: line[k] == key[k];
    FindCharUnique(line, ':', |key|);
    assert line[..|key|] == key && line[|key| + 2..] == value;
  }

  /** Headers stop where no line is left, and then nothing is taken. */
  lemma HeadersStop(buf: string, item: map<string, string>)
    requires '\n' !in buf
    ensures ReadHeaders(buf, item) == Headers(item, buf)
  {}

  predicate Has(fields: seq<(string, string)>, key: string) {
    exists i | 0 <= i < |fields| :: fields[i].0 == key
  }

  /** The value of the last field with that key. */
  function Value(fields: seq<(string, string)>, key: string): string {
    if |fields| == 0 then ""
    else if fields[0].0 == key && !Has(fields[1..], key) then fields[0].1
    else Value(fields[1..], key)
  }

  lemma HasFirst(fields: seq<(string, string)>, key: string)
    requires |fields| > 0
    ensures Has(fields, key) <==> fields[0].0 == key || Has(fields[1..], key)
  {
    if Has(fields[1..], key) {
      var i :| 0 <= i < |fields[1..]| && fields[1..][i].0 == key;
      assert fields[i + 1].0 == key;
    }
    if Has(fields, key) && fields[0].0 != key {
      var i :| 0 <= i < |fields| && fields[i].0 == key;
      assert fields[1..][i - 1].0 == key;
    }
  }

  lemma {:induction false} StoredValues(item: map<string, string>, fields: seq<(string, string)>, key: string)
    ensures var stored := StoreAll(item, fields);
            && (key in stored <==> Has(fields, key) || key in item)
            && Lookup(stored, key) == if Has(fields, key) then Value(fields, key) else Lookup(item, key)
    decreases |fields|
  {
    if |fields| > 0 {
      HasFirst(fields, key);
      StoredValues(item[fields[0].0 := fields[0].1], fields[1..], key);
    }
  }

  lemma {:induction false} NoFieldNoValue(fields: seq<(string, string)>, key: string)
    requires !Has(fields, key)
    ensures Value(fields, key) == ""
  {
    if |fields| > 0 {
      HasFirst(fields, key);
      NoFieldNoValue(fields[1..], key);
    }
  }

  // ----- Credentials -----

  /** A token behind "Basic " at the start is decoded, up to white space; any other value, and one that has
      no "Basic " in it, decodes as the empty text. */
  lemma BasicExactly(b64: Base64, token: string, behind: string, value: string)
    requires NoSpaceIn(token) && OneLine(behind)
    requires behind == "" || (token != "" && IsSpace(behind[0]))
    ensures DecodeBasic(b64, "Basic " + token + behind) == b64.decode(token)
    ensures !Contains(value, "Basic ") || !("Basic" <= value) ==> DecodeBasic(b64, value) == b64.decode("")
  {
    BasicText(token, behind);
    CStrPrefix(value);
  }

  lemma BasicText(token: string, behind: string)
    requires NoSpaceIn(token) && OneLine(behind)
    requires behind == "" || (token != "" && IsSpace(behind[0]))
    ensures var text := "Basic " + token + behind; Contains(text, "Basic ") && BasicToken(CStr(text)) == token
  {
    hide CStr, SkipSpace, Token;
    var text := "Basic " + token + behind;
    assert text[0..6] == "Basic " && OccursAt(text, "Basic ", 0);
    BasicOneLine();
    OneLineParts("Basic ", token);
    OneLineParts("Basic " + token, behind);
    CStrWhole(text);
    assert text[..5] == "Basic";
    assert text[5..] == [' '] + (token + behind);
    TokenUpTo(token, behind);
  }

  lemma BasicOneLine()
    ensures OneLine("Basic ")
  {}

  lemma TokenUpTo(token: string, behind: string)
    requires NoSpaceIn(token)
    requires behind == "" || (token != "" && IsSpace(behind[0]))
    ensures Token(SkipSpace([' '] + (token + behind))) == token
  {
    assert ([' '] + (token + behind))[1..] == token + behind;
    assert SkipSpace(token + behind) == token + behind;
    TokenStops(token, behind);
  }

  lemma {:induction false} TokenStops(token: string, behind: string)
    requires NoSpaceIn(token) && (behind == "" || IsSpace(behind[0]))
    ensures Token(token + behind) == token
  {
    if token == "" {
      assert token + behind == behind;
    } else {
      assert (token + behind)[1..] == token[1..] + behind;
      TokenStops(token[1..], behind);
    }
  }

  // ----- The record -----

  /** A user name and password, if the fields hold a value that decodes to a text with a colon. */
  ghost predicate Credentials(fields: seq<(string, string)>, b64: Base64, login: Option<(string, string)>) {
    match login
    case Some((user, pwd)) =>
      && Has(fields, "Authorization") && ':' !in user
      && DecodeBasic(b64, Value(fields, "Authorization")) == user + ":" + pwd
    case None =>
      Has(fields, "Authorization") ==> ':' !in DecodeBasic(b64, Value(fields, "Authorization"))
  }

  /** Where the client is: the header decides, unless it says nothing or zero and the text behind the request
      says more. */
  datatype Place = Place(gga: string, lat: real, lon: real)

  predicate Placed(core: Core, gga: string, tail: string, place: Place) {
    if gga != "" && core.position(gga).Some? && core.position(gga).value != (0.0, 0.0) then
      place == Place(gga, core.position(gga).value.0, core.position(gga).value.1)
    else if tail != "" && |tail| < 4096 && core.position(tail).Some? then
      place == Place(tail, core.position(tail).value.0, core.position(tail).value.1)
    else place == Place(gga, 0.0, 0.0)
  }

  /** The record of a request: what its address, its fields and its credentials say. */
  function Filled(kind: ConnectType, mount: string, para: string, fields: seq<(string, string)>,
                  login: Option<(string, string)>, place: Place): ConnectInfo {
    var agent := if Has(fields, "User-Agent") then "User-Agent" else "Source-Agent";
    var (user, pwd) := if login.Some? then login.value else ("", "");
    ConnectInfo(kind, mount, para,
                Value(fields, "Host"), Value(fields, "Transfer-Encoding"), Value(fields, agent), Value(fields, "STR"),
                Value(fields, "Ntrip-Version"), place.gga,
                if login.Some? then Value(fields, "Authorization") else "",
                if login.Some? then user + ":" + pwd else "", user, pwd, place.lat, place.lon)
  }

  lemma LoginFills(info: ConnectInfo, item: map<string, string>, b64: Base64, user: string, pwd: string)
    requires "Authorization" in item && ':' !in user
    requires DecodeBasic(b64, item["Authorization"]) == user + ":" + pwd
    ensures WithCredentials(info, item, b64)
         == info.(ntripAuth := item["Authorization"], userBase64 := user + ":" + pwd, userName := user, userPwd := pwd)
  {
    hide DecodeBasic;
    ColonAt(user, pwd);
  }

  lemma NoLoginFills(info: ConnectInfo, item: map<string, string>, b64: Base64)
    requires "Authorization" in item ==> ':' !in DecodeBasic(b64, item["Authorization"])
    ensures WithCredentials(info, item, b64) == info
  {}

  /** What the listener collects from an address and headers is the record. */
  lemma RecordExactly(url: string, mount: string, para: string, fields: seq<(string, string)>, b64: Base64,
                      login: Option<(string, string)>)
    requires ExtractPath(url) == mount && ExtractPara(url) == para && Credentials(fields, b64, login)
    ensures InfoOf(url, StoreAll(map[], fields), b64)
         == Filled(Unknown, mount, para, fields, login, Place(Value(fields, "Ntrip-GGA"), 0.0, 0.0))
  {
    hide ExtractPath, ExtractPara, DecodeBasic, Has, Value, StoreAll, WithCredentials;
    var item := StoreAll(map[], fields);
    FieldFound(fields, "Host");
    FieldFound(fields, "Transfer-Encoding");
    FieldFound(fields, "User-Agent");
    FieldFound(fields, "Source-Agent");
    FieldFound(fields, "STR");
    FieldFound(fields, "Ntrip-Version");
    FieldFound(fields, "Ntrip-GGA");
    FieldFound(fields, "Authorization");
    var info := Filled(Unknown, mount, para, fields, None, Place(Value(fields, "Ntrip-GGA"), 0.0, 0.0));
    match login {
      case Some((user, pwd)) => LoginFills(info, item, b64, user, pwd);
      case None => NoLoginFills(info, item, b64);
    }
  }

  lemma FieldFound(fields: seq<(string, string)>, key: string)
    ensures var item := StoreAll(map[], fields);
            && Lookup(item, key) == Value(fields, key)
            && (key in item <==> Has(fields, key))
            && (key in item ==> item[key] == Value(fields, key))
  {
    StoredValues(map[], fields, key);
    if !Has(fields, key) {
      NoFieldNoValue(fields, key);
    }
  }

  lemma PlaceExactly(info: ConnectInfo, tail: string, core: Core, place: Place)
    requires info.lat == 0.0 && info.lon == 0.0 && Placed(core, info.ntripGga, tail, place)
    ensures Located(info, tail, core) == info.(ntripGga := place.gga, lat := place.lat, lon := place.lon)
  {}

  // ----- The answers -----

  /** Fields of a request, what follows them, and what they come to. */
  ghost predicate Heard(core: Core, b64: Base64, mount: string, fields: seq<(string, string)>, last: string,
                        tail: string, login: Option<(string, string)>, place: Place) {
    && ValidMount(mount) && (forall i | 0 <= i < |fields| :: GoodField(fields[i])) && EndsHeaders(last)
    && Credentials(fields, b64, login) && Placed(core, Value(fields, "Ntrip-GGA"), tail, place)
  }

  function Address(mount: string, para: Option<string>): string {
    "/" + mount + if para.Some? then "?" + para.value else ""
  }

  lemma Collected(core: Core, b64: Base64, mount: string, para: Option<string>, fields: seq<(string, string)>,
                  last: string, tail: string, login: Option<(string, string)>, place: Place)
    requires Heard(core, b64, mount, fields, last, tail, login, place)
    ensures ExtractPath(Address(mount, para)) == mount
    ensures var headers := ReadHeaders(Print(FieldLines(fields) + [last]) + tail, map[]);
            && headers.rest == tail
            && Located(InfoOf(Address(mount, para), headers.item, b64), tail, core)
            == Filled(Unknown, mount, if para.Some? then para.value else "", fields, login, place)
  {
    hide DecodeBasic, StoreAll, InfoOf, ExtractPath, ExtractPara, ReadHeaders, Placed, Located, GoodField, EndsHeaders, Value,
         Credentials;
    var url, query := Address(mount, para), if para.Some? then para.value else "";
    NoQuestionMark(mount);
    AddressExactly(mount, query);
    assert url == if para.Some? then "/" + mount + "?" + para.value else "/" + mount;
    HeadersReadBack(fields, last, tail, map[]);
    RecordExactly(url, mount, query, fields, b64, login);
    PlaceExactly(InfoOf(url, StoreAll(map[], fields), b64), tail, core, place);
  }

  lemma NoQuestionMark(mount: string)
    requires ValidMount(mount)
    ensures '?' !in mount
  {}

  /** Every answer to a GET: the source table or a client, if the listener takes them; no password is
      needed to ask for the source table without a name. */
  lemma GetAnswers(opt: ListenerOpt, core: Core, b64: Base64, mount: string, para: Option<string>,
                   fields: seq<(string, string)>, last: string, tail: string, login: Option<(string, string)>, place: Place)
    requires Heard(core, b64, mount, fields, last, tail, login, place)
    ensures var parsed := HandleRoute(Get(Address(mount, para)), opt, core, b64, Print(FieldLines(fields) + [last]) + tail);
            var query := if para.Some? then para.value else "";
            && parsed.rest == tail
            && (mount == "" && !opt.sourceLogin ==> parsed.outcome == Rejected(1))
            && (mount == "" && opt.sourceLogin && (login.None? || login.value == ("", "")) ==>
                  parsed.outcome == Accepted(Filled(SourceTable, mount, query, fields, login, place)))
            && (mount == "" && opt.sourceLogin && login.Some? && login.value != ("", "") ==>
                  parsed.outcome == Verify(Filled(SourceTable, mount, query, fields, login, place), AuthSource))
            && (mount != "" && !opt.clientLogin ==> parsed.outcome == Rejected(1))
            && (mount != "" && opt.clientLogin && core.nearest(mount) ==>
                  parsed.outcome == Verify(Filled(Nearest, mount, query, fields, login, place), AuthClient))
            && (mount != "" && opt.clientLogin && !core.nearest(mount) ==>
                  parsed.outcome == Verify(Filled(Client, mount, query, fields, login, place), AuthClient))
  {
    hide DecodeBasic, StoreAll, InfoOf, ExtractPath, ExtractPara, ReadHeaders, Placed, Located, GoodField, EndsHeaders, Value,
         Credentials, ValidMount, Has, Address, Print, FieldLines;
    Collected(core, b64, mount, para, fields, last, tail, login, place);
  }

  /** Every answer to a POST. */
  lemma PostAnswers(opt: ListenerOpt, core: Core, b64: Base64, mount: string, para: Option<string>,
                    fields: seq<(string, string)>, last: string, tail: string, login: Option<(string, string)>, place: Place)
    requires Heard(core, b64, mount, fields, last, tail, login, place)
    ensures var buf := Print(FieldLines(fields) + [last]) + tail;
            var parsed := HandleRoute(Post(Address(mount, para)), opt, core, b64, buf);
            var query := if para.Some? then para.value else "";
            && parsed.rest == (if opt.serverLogin then tail else buf)
            && (!opt.serverLogin ==> parsed.outcome == Rejected(1))
            && (opt.serverLogin && core.nearest(mount) ==> parsed.outcome == Rejected(2))
            && (opt.serverLogin && !core.nearest(mount) && core.isAlias(mount) ==> parsed.outcome == Rejected(3))
            && (opt.serverLogin && !core.nearest(mount) && !core.isAlias(mount) ==>
                  parsed.outcome == Verify(Filled(Server, mount, query, fields, login, place), AuthServer))
  {
    hide DecodeBasic, StoreAll, InfoOf, ExtractPath, ExtractPara, ReadHeaders, Placed, Located, GoodField, EndsHeaders, Value,
         Credentials, ValidMount, Has, Address, Print, FieldLines;
    Collected(core, b64, mount, para, fields, last, tail, login, place);
  }

  /** Every answer to a SOURCE: as for a POST, and the password on the request line is name, password and
      both joined by a colon. */
  lemma SourceAnswers(opt: ListenerOpt, core: Core, b64: Base64, mount: string, para: Option<string>, secret: string,
                      fields: seq<(string, string)>, last: string, tail: string, login: Option<(string, string)>, place: Place)
    requires Heard(core, b64, mount, fields, last, tail, login, place)
    ensures var buf := Print(FieldLines(fields) + [last]) + tail;
            var parsed := HandleRoute(Source(Address(mount, para), secret), opt, core, b64, buf);
            var filled := Filled(Server, mount, if para.Some? then para.value else "", fields, login, place);
            && parsed.rest == (if opt.serverLogin then tail else buf)
            && (!opt.serverLogin ==> parsed.outcome == Rejected(1))
            && (opt.serverLogin && core.nearest(mount) ==> parsed.outcome == Rejected(2))
            && (opt.serverLogin && !core.nearest(mount) && core.isAlias(mount) ==> parsed.outcome == Rejected(3))
            && (opt.serverLogin && !core.nearest(mount) && !core.isAlias(mount) ==>
                  parsed.outcome == Verify(if secret == "" then filled
                                           else filled.(userBase64 := secret + ":" + secret, userName := secret, userPwd := secret),
                                           AuthServer))
  {
    hide DecodeBasic, StoreAll, InfoOf, ExtractPath, ExtractPara, ReadHeaders, Placed, Located, GoodField, EndsHeaders, Value,
         Credentials, ValidMount, Has, Address, Print, FieldLines;
    Collected(core, b64, mount, para, fields, last, tail, login, place);
  }

  /** A mount point with any other character is refused, and the headers are not looked at. */
  lemma BadNamesRefused(opt: ListenerOpt, core: Core, b64: Base64, mount: string, para: Option<string>, secret: string, buf: string)
    requires '?' !in mount && !ValidMount(mount)
    ensures HandleRoute(Get(Address(mount, para)), opt, core, b64, buf) == Parsed(Unsupported, buf)
    ensures var refused := if opt.serverLogin then Unsupported else Rejected(1);
            && HandleRoute(Post(Address(mount, para)), opt, core, b64, buf) == Parsed(refused, buf)
            && HandleRoute(Source(Address(mount, para), secret), opt, core, b64, buf) == Parsed(refused, buf)
  {
    hide ExtractPath, ExtractPara, ValidMount;
    AddressExactly(mount, if para.Some? then para.value else "");
    assert Address(mount, para) == if para.Some? then "/" + mount + "?" + para.value else "/" + mount;
  }

  lemma BadIsRefused(opt: ListenerOpt, core: Core, b64: Base64, buf: string)
    ensures HandleRoute(Bad, opt, core, b64, buf) == Parsed(Unsupported, buf)
  {}

  // ----- What a relay prints, and the answer to it -----

  lemma {:induction false} FieldLinesAre(fields: seq<(string, string)>)
    ensures |FieldLines(fields)| == |fields|
    ensures forall i | 0 <= i < |fields| :: FieldLines(fields)[i] == fields[i].0 + ": " + fields[i].1
  {
    if |fields| > 0 {
      FieldLinesAre(fields[1..]);
    }
  }

  lemma FixedLines()
    ensures "Ntrip-Version" + ": " + "Ntrip/2.0" == "Ntrip-Version: Ntrip/2.0"
    ensures "Transfer-Encoding" + ": " + "chunked" == "Transfer-Encoding: chunked"
    ensures "Connection" + ": " + "close" == "Connection: close"
  {}

  lemma HostLine(host: string)
    ensures "Host" + ": " + host == "Host: " + host
  {}

  lemma AuthorizationLine(token: string)
    ensures "Authorization" + ": " + ("Basic " + token) == "Authorization: Basic " + token
  {
    assert "Authorization" + ": " + "Basic " == "Authorization: Basic ";
  }

  lemma AgentLines(product: Product)
    ensures "User-Agent" + ": " + Agent(product) == "User-Agent: NTRIP " + product.name + "/" + product.version
    ensures "Source-Agent" + ": " + Agent(product) == "Source-Agent: NTRIP " + product.name + "/" + product.version
  {
    var rest := product.name + "/" + product.version;
    assert Agent(product) == "NTRIP " + rest;
    assert "User-Agent" + ": " + "NTRIP " == "User-Agent: NTRIP ";
    assert "Source-Agent" + ": " + "NTRIP " == "Source-Agent: NTRIP ";
  }

  /** The lines of a request to push by SOURCE. */
  lemma SourceLines(mount: string, host: string, auth: string, product: Product, b64: Base64)
    ensures BuildRequest(Push, false, mount, host, auth, product, b64)
         == Print(["SOURCE " + Password(auth) + " /" + mount + " HTTP/1.1",
                   "Source-Agent: NTRIP " + product.name + "/" + product.version,
                   ""])
  {
    hide Print, Password, FieldLines, Agent;
    AgentLines(product);
    FieldLinesAre(Fields(Push, false, host, auth, product, b64));
    assert [RequestLine(Push, false, mount, auth)] + FieldLines(Fields(Push, false, host, auth, product, b64)) + [""]
        == ["SOURCE " + Password(auth) + " /" + mount + " HTTP/1.1",
            "Source-Agent: NTRIP " + product.name + "/" + product.version,
            ""];
  }

  /** The lines of a request to push by POST. */
  lemma PostLines(mount: string, host: string, auth: string, product: Product, b64: Base64)
    ensures BuildRequest(Push, true, mount, host, auth, product, b64)
         == Print(["POST /" + mount + " HTTP/1.1",
                   "Host: " + host,
                   "Ntrip-Version: Ntrip/2.0",
                   "Authorization: Basic " + EncodedAuth(b64, auth),
                   "User-Agent: NTRIP " + product.name + "/" + product.version,
                   "Transfer-Encoding: chunked",
                   "Connection: close",
                   ""])
  {
    hide Print, EncodedAuth, FieldLines, Agent;
    FixedLines();
    HostLine(host);
    AuthorizationLine(EncodedAuth(b64, auth));
    AgentLines(product);
    FieldLinesAre(Fields(Push, true, host, auth, product, b64));
    assert [RequestLine(Push, true, mount, auth)] + FieldLines(Fields(Push, true, host, auth, product, b64)) + [""]
        == ["POST /" + mount + " HTTP/1.1",
            "Host: " + host,
            "Ntrip-Version: Ntrip/2.0",
            "Authorization: Basic " + EncodedAuth(b64, auth),
            "User-Agent: NTRIP " + product.name + "/" + product.version,
            "Transfer-Encoding: chunked",
            "Connection: close",
            ""];
  }

  /** The lines of a request to pull in the second version. */
  lemma GetLines(mount: string, host: string, auth: string, product: Product, b64: Base64)
    ensures BuildRequest(Pull, true, mount, host, auth, product, b64)
         == Print(["GET /" + mount + " HTTP/1.1",
                   "Host: " + host,
                   "Ntrip-Version: Ntrip/2.0",
                   "User-Agent: NTRIP " + product.name + "/" + product.version,
                   "Authorization: Basic " + EncodedAuth(b64, auth),
                   "Connection: close",
                   ""])
  {
    hide Print, EncodedAuth, FieldLines, Agent;
    FixedLines();
    HostLine(host);
    AuthorizationLine(EncodedAuth(b64, auth));
    AgentLines(product);
    FieldLinesAre(Fields(Pull, true, host, auth, product, b64));
    assert [RequestLine(Pull, true, mount, auth)] + FieldLines(Fields(Pull, true, host, auth, product, b64)) + [""]
        == ["GET /" + mount + " HTTP/1.1",
            "Host: " + host,
            "Ntrip-Version: Ntrip/2.0",
            "User-Agent: NTRIP " + product.name + "/" + product.version,
            "Authorization: Basic " + EncodedAuth(b64, auth),
            "Connection: close",
            ""];
  }

  /** The lines of a request to pull in the first version. */
  lemma OldGetLines(mount: string, host: string, auth: string, product: Product, b64: Base64)
    ensures BuildRequest(Pull, false, mount, host, auth, product, b64)
         == Print(["GET /" + mount + " HTTP/1.0",
                   "User-Agent: NTRIP " + product.name + "/" + product.version,
                   "Authorization: Basic " + EncodedAuth(b64, auth),
                   ""])
  {
    hide Print, EncodedAuth, FieldLines, Agent;
    AuthorizationLine(EncodedAuth(b64, auth));
    AgentLines(product);
    FieldLinesAre(Fields(Pull, false, host, auth, product, b64));
    assert [RequestLine(Pull, false, mount, auth)] + FieldLines(Fields(Pull, false, host, auth, product, b64)) + [""]
        == ["GET /" + mount + " HTTP/1.0",
            "User-Agent: NTRIP " + product.name + "/" + product.version,
            "Authorization: Basic " + EncodedAuth(b64, auth),
            ""];
  }

  /** Each line is ended by CRLF, and nothing stands between the lines. */
  lemma PrintedExactly(a: string, b: string, more: seq<string>)
    ensures Print([]) == "" && Print([a]) == a + "\r\n" && Print([a, b] + more) == a + "\r\n" + b + "\r\n" + Print(more)
  {
    assert [a][1..] == [] && a + "\r\n" + "" == a + "\r\n";
    assert ([a, b] + more)[1..] == [b] + more && ([b] + more)[1..] == more;
    assert a + "\r\n" + (b + "\r\n" + Print(more)) == a + "\r\n" + b + "\r\n" + Print(more);
  }

  /** The password is what stands behind the first colon, or everything if there is none. Credentials are
      encoded up to a NUL, and nothing is encoded as nothing. */
  lemma SecretsExactly(user: string, pwd: string, b64: Base64, junk: string)
    ensures ':' !in user ==> Password(user + ":" + pwd) == pwd && Password(user) == user
    ensures '\0' !in user ==>
              && EncodedAuth(b64, user) == (if user == "" then "" else b64.encode(user))
              && EncodedAuth(b64, user + "\0" + junk) == b64.encode(user)
  {
    if ':' !in user {
      ColonAt(user, pwd);
    }
    if '\0' !in user {
      CutAtNul(user, junk);
      CStrWhole(user);
    }
  }

  /** A relay that pushes by SOURCE with the password `p`, alone or behind a user and a colon: it is turned
      away from a listener without servers and from mount points that are nearest ones or aliases, and
      otherwise `p` is verified, as name and as password. */
  lemma SourceLogin(opt: ListenerOpt, core: Core, mount: string, host: string, auth: string, product: Product,
                    b64: Base64, tail: string, user: string, p: string)
    requires Printable(Push, false, mount, host, auth, product, b64)
    requires ':' !in user && (auth == user + ":" + p || (auth == user && p == user))
    ensures var text := BuildRequest(Push, false, mount, host, auth, product, b64) + tail;
            var outcome := Process(opt, core, b64, text).outcome;
            var place := if tail != "" && |tail| < 4096 then core.position(tail) else None;
            && (!opt.serverLogin ==> outcome == Rejected(1))
            && (opt.serverLogin && core.nearest(mount) ==> outcome == Rejected(2))
            && (opt.serverLogin && !core.nearest(mount) && core.isAlias(mount) ==> outcome == Rejected(3))
            && (opt.serverLogin && !core.nearest(mount) && !core.isAlias(mount) ==>
                  outcome == Verify(
                    ConnectInfo(Server, mount, "", "", "", "NTRIP " + product.name + "/" + product.version, "", "",
                                if place.Some? then tail else "", "", if p == "" then "" else p + ":" + p, p, p,
                                if place.Some? then place.value.0 else 0.0,
                                if place.Some? then place.value.1 else 0.0), AuthServer))
  {
    hide Password, BuildRequest, Process, Printable;
    RequestUnderstood(opt, core, Push, false, mount, host, auth, product, b64, tail);
    SecretsExactly(user, p, b64, "");
  }

  /** A relay that pushes by POST is answered likewise; its credentials are known if they have a colon. */
  lemma PostLogin(opt: ListenerOpt, core: Core, mount: string, host: string, auth: string, product: Product,
                  b64: Base64, tail: string, user: string, p: string)
    requires Printable(Push, true, mount, host, auth, product, b64)
    requires ':' !in user && (auth == user + ":" + p || (auth == user && p == user))
    ensures var text := BuildRequest(Push, true, mount, host, auth, product, b64) + tail;
            var outcome := Process(opt, core, b64, text).outcome;
            var place := if tail != "" && |tail| < 4096 then core.position(tail) else None;
            var known := ':' in auth;
            && (!opt.serverLogin ==> outcome == Rejected(1))
            && (opt.serverLogin && core.nearest(mount) ==> outcome == Rejected(2))
            && (opt.serverLogin && !core.nearest(mount) && core.isAlias(mount) ==> outcome == Rejected(3))
            && (opt.serverLogin && !core.nearest(mount) && !core.isAlias(mount) ==>
                  outcome == Verify(
                    ConnectInfo(Server, mount, "", host, "chunked", "NTRIP " + product.name + "/" + product.version, "",
                                "Ntrip/2.0", if place.Some? then tail else "",
                                if known then "Basic " + b64.encode(auth) else "", if known then auth else "",
                                if known then user else "", if known then p else "",
                                if place.Some? then place.value.0 else 0.0,
                                if place.Some? then place.value.1 else 0.0), AuthServer))
  {
    hide EncodedAuth, BuildRequest, Process;
    RequestUnderstood(opt, core, Push, true, mount, host, auth, product, b64, tail);
    CredentialsSplit(auth, user, p, b64);
  }

  lemma CredentialsSplit(auth: string, user: string, p: string, b64: Base64)
    requires IsCString(auth) && ':' !in user && (auth == user + ":" + p || (auth == user && p == user))
    ensures ':' in auth <==> auth == user + ":" + p
    ensures ':' in auth ==> EncodedAuth(b64, auth) == b64.encode(auth)
    ensures FindChar(auth, ':') == if ':' in auth then |user| else |auth|
    ensures ':' in auth ==> auth[..|user|] == user && auth[|user| + 1..] == p
  {
    NoNulIn(auth);
    CStrWhole(auth);
    if auth == user + ":" + p {
      ColonAt(user, p);
    }
  }

  lemma NoNulIn(s: string)
    requires IsCString(s)
    ensures '\0' !in s
  {}

  lemma ColonAt(user: string, p: string)
    requires ':' !in user
    ensures var auth := user + ":" + p;
            ':' in auth && FindChar(auth, ':') == |user| && auth[..|user|] == user && auth[|user| + 1..] == p
  {
    var auth := user + ":" + p;
    assert auth[|user|] == ':';
    assert forall k | 0 <= k < |user| :: auth[k] == user[k];
    FindCharUnique(auth, ':', |user|);
  }

  /** A relay that pulls: with a mount point it is a client, of a nearest or of another mount point; without
      one it asks for the source table, and is only let in unverified if it gives neither name nor password. */
  lemma GetLogin(opt: ListenerOpt, core: Core, version2: bool, mount: string, host: string, auth: string,
                 product: Product, b64: Base64, tail: string, user: string, p: string)
    requires Printable(Pull, version2, mount, host, auth, product, b64)
    requires ':' !in user && (auth == user + ":" + p || (auth == user && p == user))
    ensures var text := BuildRequest(Pull, version2, mount, host, auth, product, b64) + tail;
            var parsed := Process(opt, core, b64, text);
            var place := if tail != "" && |tail| < 4096 then core.position(tail) else None;
            var known := ':' in auth;
            var info := ConnectInfo(
                          if mount == "" then SourceTable else if core.nearest(mount) then Nearest else Client, mount, "",
                          if version2 then host else "", "", "NTRIP " + product.name + "/" + product.version, "",
                          if version2 then "Ntrip/2.0" else "", if place.Some? then tail else "",
                          if known then "Basic " + b64.encode(auth) else "", if known then auth else "",
                          if known then user else "", if known then p else "",
                          if place.Some? then place.value.0 else 0.0, if place.Some? then place.value.1 else 0.0);
            && parsed.rest == tail
            && (mount == "" && !opt.sourceLogin ==> parsed.outcome == Rejected(1))
            && (mount == "" && opt.sourceLogin && (!known || auth == ":") ==> parsed.outcome == Accepted(info))
            && (mount == "" && opt.sourceLogin && known && auth != ":" ==> parsed.outcome == Verify(info, AuthSource))
            && (mount != "" && !opt.clientLogin ==> parsed.outcome == Rejected(1))
            && (mount != "" && opt.clientLogin ==> parsed.outcome == Verify(info, AuthClient))
  {
    hide BuildRequest, Process, Printable, PullInfo, WithTail, ValidMount;
    RequestUnderstood(opt, core, Pull, version2, mount, host, auth, product, b64, tail);
    AuthIsCString(version2, mount, host, auth, product, b64);
    PullRecord(core, version2, mount, host, auth, product, b64, tail, user, p);
    OnlyColon(user, p);
  }

  lemma AuthIsCString(version2: bool, mount: string, host: string, auth: string, product: Product, b64: Base64)
    requires Printable(Pull, version2, mount, host, auth, product, b64)
    ensures IsCString(auth)
  {}

  lemma PullRecord(core: Core, version2: bool, mount: string, host: string, auth: string, product: Product,
                   b64: Base64, tail: string, user: string, p: string)
    requires IsCString(auth) && ':' !in user && (auth == user + ":" + p || (auth == user && p == user))
    ensures ':' in auth <==> auth == user + ":" + p
    ensures var place := if tail != "" && |tail| < 4096 then core.position(tail) else None;
            var known := ':' in auth;
            WithTail(PullInfo(version2, mount, host, auth, product, b64), tail, core)
            == ConnectInfo(Unknown, mount, "", if version2 then host else "", "",
                           "NTRIP " + product.name + "/" + product.version, "",
                           if version2 then "Ntrip/2.0" else "", if place.Some? then tail else "",
                           if known then "Basic " + b64.encode(auth) else "", if known then auth else "",
                           if known then user else "", if known then p else "",
                           if place.Some? then place.value.0 else 0.0, if place.Some? then place.value.1 else 0.0)
  {
    hide EncodedAuth;
    CredentialsSplit(auth, user, p, b64);
  }

  lemma OnlyColon(user: string, p: string)
    ensures user + ":" + p == ":" <==> user == "" && p == ""
  {
    if user + ":" + p == ":" {
      assert |user + ":" + p| == 1;
    }
  }
}
