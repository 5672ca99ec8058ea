/** What a relay prints is what a listener understands. */
module RequestRoundTrip {
  import opened EvBuffer
  import opened Options
  import opened RequestPrinter
  import opened RequestParser
  import opened Sequences

  // ----- What may be printed -----

  /** Text that fits on one line of a C string. */
  predicate OneLine(s: string) {
    '\n' !in s && '\0' !in s
  }

  /** A password that survives being a bare word on the SOURCE line. The empty one does too. */
  predicate BareWord(s: string) {
    (forall i | 0 <= i < |s| :: InRun(s[i]) && s[i] != '\0') && (|s| > 0 ==> !IsSpace(s[0]))
  }

  ghost predicate Printable(direction: Direction, version2: bool, mount: string, host: string, auth: string,
                            product: Product, b64: Base64) {
    && RoundTrips(b64)
    && ValidMount(mount) && OneLine(host) && IsCString(auth)
    && OneLine(product.name) && OneLine(product.version)
    && (direction == Push && !version2 ==> BareWord(Password(auth)))
    && |RequestLine(direction, version2, mount, auth)| <= 255
    && |EncodedAuth(b64, auth)| <= 255
    && |"Host: " + host| <= 1024 && |"Source-Agent: " + Agent(product)| <= 1024
  }

  // ----- What should be understood -----

  /** Credentials without a colon are not understood. */
  function WithAuth(info: ConnectInfo, auth: string, b64: Base64): ConnectInfo {
    var x := FindChar(auth, ':');
    if x == |auth| then info
    else info.(ntripAuth := "Basic " + EncodedAuth(b64, auth), userBase64 := auth,
               userName := auth[..x], userPwd := auth[x + 1..])
  }

  function PullInfo(version2: bool, mount: string, host: string, auth: string, product: Product, b64: Base64): ConnectInfo {
    WithAuth(NO_INFO.(mountPoint := mount, httpHost := if version2 then host else "",
                      ntripVersion := if version2 then "Ntrip/2.0" else "", userAgent := Agent(product)),
             auth, b64)
  }

  function PostInfo(mount: string, host: string, auth: string, product: Product, b64: Base64): ConnectInfo {
    WithAuth(NO_INFO.(mountPoint := mount, httpHost := host, ntripVersion := "Ntrip/2.0",
                      httpChunked := "chunked", userAgent := Agent(product)),
             auth, b64)
  }

  function SourceInfo(mount: string, auth: string, product: Product): ConnectInfo {
    WithSecret(NO_INFO.(mountPoint := mount, userAgent := Agent(product)), Password(auth))
  }

  /** A position is only known if what follows the request holds one. */
  function WithTail(info: ConnectInfo, tail: string, core: Core): ConnectInfo {
    var behind := if 0 < |tail| < 4096 then core.position(tail) else None;
    if behind.None? then info else info.(ntripGga := tail, lat := behind.value.0, lon := behind.value.1)
  }

  /** The listener's answer to a relay, in terms of what the relay was told and of what follows its request. */
  function Understood(opt: ListenerOpt, core: Core, direction: Direction, version2: bool, mount: string,
                      host: string, auth: string, product: Product, b64: Base64, tail: string): Outcome {
    match direction
    case Pull => GetOutcome(opt, core, WithTail(PullInfo(version2, mount, host, auth, product, b64), tail, core))
    case Push =>
      if !opt.serverLogin then Rejected(1)
      else ServerOutcome(core, WithTail(if version2 then PostInfo(mount, host, auth, product, b64)
                                        else SourceInfo(mount, auth, product), tail, core))
  }

  // ----- The request line -----

  lemma RunUnique(s: string, n: nat)
    requires n <= |s| && (forall i | 0 <= i < n :: InRun(s[i])) && (n < |s| ==> !InRun(s[n]))
    ensures Run(s) == n
  {
    var m := Run(s);
    assert m < |s| ==> !InRun(s[m]);
  }

  predicate Word(w: string) {
    |w| > 0 && !IsSpace(w[0]) && forall i | 0 <= i < |w| :: InRun(w[i])
  }

  /** Scanning takes a word and the blank behind it off the front. */
  lemma ScanWord(word: string, tail: string, n: nat)
    requires Word(word) && n > 0
    ensures ScanRuns(word + (" " + tail), n) == [word] + ScanRuns(SkipSpace(tail), n - 1)
  {
    var s := word + (" " + tail);
    assert forall i | 0 <= i < |word| :: s[i] == word[i];
    assert s[|word|] == ' ';
    RunUnique(s, |word|);
    assert s[..|word|] == word && s[|word|..] == " " + tail && (" " + tail)[1..] == tail;
  }

  lemma ScanLastWord(word: string, n: nat)
    requires Word(word) && n > 0
    ensures ScanRuns(word, n) == [word] + seq(n - 1, _ => "")
  {
    RunUnique(word, |word|);
    assert word[..|word|] == word && word[|word|..] == "";
    assert SkipSpace("") == "" && Run("") == 0;
    assert ScanRuns("", n - 1) == seq(n - 1, _ => "");
  }

  lemma NoSpaceToSkip(s: string)
    requires |s| > 0 && !IsSpace(s[0])
    ensures SkipSpace(s) == s
  {}

  lemma ScanThree(a: string, b: string, c: string, n: nat)
    requires Word(a) && Word(b) && Word(c) && n == 4
    ensures ScanRuns(a + (" " + (b + (" " + c))), n) == [a, b, c, ""]
  {
    var t := b + (" " + c);
    ScanWord(a, t, n);
    NoSpaceToSkip(t);
    ScanWord(b, c, n - 1);
    NoSpaceToSkip(c);
    ScanLastWord(c, n - 2);
    assert seq(n - 3, _ => "") == [""];
    assert [a] + ([b] + ([c] + [""])) == [a, b, c, ""];
  }

  lemma ScanFour(a: string, b: string, c: string, d: string, n: nat)
    requires Word(a) && Word(b) && Word(c) && Word(d) && n == 4
    ensures ScanRuns(a + (" " + (b + (" " + (c + (" " + d))))), n) == [a, b, c, d]
  {
    var t, u := b + (" " + (c + (" " + d))), c + (" " + d);
    ScanWord(a, t, n);
    NoSpaceToSkip(t);
    ScanWord(b, u, n - 1);
    NoSpaceToSkip(u);
    ScanWord(c, d, n - 2);
    NoSpaceToSkip(d);
    ScanLastWord(d, n - 3);
    assert [a] + ([b] + ([c] + [d])) == [a, b, c, d];
  }

  /** Two blanks in a row scan like one. */
  lemma ScanTwoBlanks(word: string, tail: string, n: nat)
    requires Word(word) && n > 0
    ensures ScanRuns(word + (" " + (" " + tail)), n) == ScanRuns(word + (" " + tail), n)
  {
    ScanWord(word, " " + tail, n);
    ScanWord(word, tail, n);
    assert (" " + tail)[1..] == tail;
  }

  lemma MountWord(mount: string)
    requires ValidMount(mount)
    ensures Word("/" + mount) && OneLine("/" + mount)
    ensures ExtractPath("/" + mount) == mount && ExtractPara("/" + mount) == ""
  {
    var p := "/" + mount;
    forall i | 0 <= i < |p|
      ensures InRun(p[i]) && p[i] != '?' && p[i] != '\0'
    {
      if i > 0 {
        assert MountChar(mount[i - 1]);
      }
    }
    assert Rooted(p) == p;
    assert FindChar(p, '?') == |p|;
    assert p[1..] == mount;
  }

  lemma Literals()
    ensures Word("GET") && Word("POST") && Word("SOURCE") && Word("HTTP/1.1") && Word("HTTP/1.0")
    ensures OneLine("GET") && OneLine("POST") && OneLine("SOURCE") && OneLine("HTTP/1.1") && OneLine("HTTP/1.0")
    ensures OneLine(" ")
  {}

  lemma OneLineParts(a: string, b: string)
    requires OneLine(a) && OneLine(b)
    ensures OneLine(a + b)
  {}

  lemma LineIsWhole(line: string)
    requires OneLine(line)
    ensures CStr(line) == line
  {
    CStrWhole(line);
  }

  /** Three words in a row make one line that scans back into them. */
  lemma ThreeWordLine(a: string, b: string, c: string)
    requires Word(a) && Word(b) && Word(c) && OneLine(a) && OneLine(b) && OneLine(c)
    ensures var line := a + (" " + (b + (" " + c)));
            OneLine(line) && ScanRuns(CStr(line), 4) == [a, b, c, ""]
  {
    hide Word, OneLine, ScanRuns, CStr;
    Literals();
    OneLineParts(" ", c);
    OneLineParts(b, " " + c);
    OneLineParts(" ", b + (" " + c));
    OneLineParts(a, " " + (b + (" " + c)));
    LineIsWhole(a + (" " + (b + (" " + c))));
    ScanThree(a, b, c, 4);
  }

  /** So do four words. */
  lemma FourWordLine(a: string, b: string, c: string, d: string)
    requires Word(a) && Word(b) && Word(c) && Word(d) && OneLine(a) && OneLine(b) && OneLine(c) && OneLine(d)
    ensures var line := a + (" " + (b + (" " + (c + (" " + d)))));
            OneLine(line) && ScanRuns(CStr(line), 4) == [a, b, c, d]
  {
    hide Word, OneLine, ScanRuns, CStr;
    Literals();
    ThreeWordLine(b, c, d);
    var tail := b + (" " + (c + (" " + d)));
    OneLineParts(" ", tail);
    OneLineParts(a, " " + tail);
    LineIsWhole(a + (" " + tail));
    ScanFour(a, b, c, d, 4);
  }

  /** And three words with two blanks between the first two. */
  lemma TwoBlanksLine(a: string, b: string, c: string)
    requires Word(a) && Word(b) && Word(c) && OneLine(a) && OneLine(b) && OneLine(c)
    ensures var line := a + (" " + (" " + (b + (" " + c))));
            OneLine(line) && ScanRuns(CStr(line), 4) == [a, b, c, ""]
  {
    hide Word, OneLine, ScanRuns, CStr;
    Literals();
    ThreeWordLine(a, b, c);
    var tail := b + (" " + c);
    OneLineParts(" ", c);
    OneLineParts(b, " " + c);
    OneLineParts(" ", tail);
    OneLineParts(" ", " " + tail);
    OneLineParts(a, " " + (" " + tail));
    LineIsWhole(a + (" " + tail));
    LineIsWhole(a + (" " + (" " + tail)));
    OneLineParts(a, " " + tail);
    ScanTwoBlanks(a, tail, 4);
  }

  /** The listener routes a printed request line to the right handler, with the right address. */
  lemma RequestLineRoutes(direction: Direction, version2: bool, mount: string, auth: string)
    requires ValidMount(mount)
    requires direction == Push && !version2 ==> BareWord(Password(auth))
    ensures var line := RequestLine(direction, version2, mount, auth);
            && OneLine(line) && |line| >= 9
            && RouteOf(line) == if direction == Pull then Get("/" + mount)
                                else if version2 then Post("/" + mount)
                                else Source("/" + mount, Password(auth))
  {
    match direction {
      case Pull => GetLineRoutes(version2, mount, auth);
      case Push =>
        if version2 {
          PostLineRoutes(mount, auth);
        } else {
          SourceLineRoutes(mount, auth);
        }
    }
  }

  /** A line with the method, the address and the version goes to the method's handler. */
  lemma MethodLineRoutes(name: string, mount: string, version: string)
    requires ValidMount(mount) && (name == "GET" || name == "POST") && IsHttp1(version)
    ensures var line := name + (" " + ("/" + mount + (" " + version)));
            OneLine(line) && |line| >= 9 && RouteOf(line) == if name == "GET" then Get("/" + mount) else Post("/" + mount)
  {
    hide Word, OneLine, ScanRuns, CStr;
    MountWord(mount);
    Literals();
    ThreeWordLine(name, "/" + mount, version);
  }

  lemma GetLineRoutes(version2: bool, mount: string, auth: string)
    requires ValidMount(mount)
    ensures var line := RequestLine(Pull, version2, mount, auth);
            OneLine(line) && |line| >= 9 && RouteOf(line) == Get("/" + mount)
  {
    hide RouteOf, OneLine, ValidMount;
    var version := if version2 then "HTTP/1.1" else "HTTP/1.0";
    MethodLineRoutes("GET", mount, version);
    assert RequestLine(Pull, version2, mount, auth) == "GET" + (" " + ("/" + mount + (" " + version)));
  }

  lemma PostLineRoutes(mount: string, auth: string)
    requires ValidMount(mount)
    ensures var line := RequestLine(Push, true, mount, auth);
            OneLine(line) && |line| >= 9 && RouteOf(line) == Post("/" + mount)
  {
    hide RouteOf, OneLine, ValidMount;
    MethodLineRoutes("POST", mount, "HTTP/1.1");
    assert RequestLine(Push, true, mount, auth) == "POST" + (" " + ("/" + mount + (" " + "HTTP/1.1")));
  }

  lemma SourceLineRoutes(mount: string, auth: string)
    requires ValidMount(mount) && BareWord(Password(auth))
    ensures var line := RequestLine(Push, false, mount, auth);
            OneLine(line) && |line| >= 9 && RouteOf(line) == Source("/" + mount, Password(auth))
  {
    if Password(auth) == "" {
      SourceLineNoPassword(mount, auth);
    } else {
      SourceLinePassword(mount, auth);
    }
  }

  /** Without a password the address is the second word, and the listener sees three words. */
  lemma SourceLineNoPassword(mount: string, auth: string)
    requires ValidMount(mount) && Password(auth) == ""
    ensures var line := RequestLine(Push, false, mount, auth);
            OneLine(line) && |line| >= 9 && RouteOf(line) == Source("/" + mount, "")
  {
    hide Word, OneLine, ScanRuns, CStr, ValidMount, Password;
    MountWord(mount);
    Literals();
    TwoBlanksLine("SOURCE", "/" + mount, "HTTP/1.1");
    assert RequestLine(Push, false, mount, auth) == "SOURCE" + (" " + (" " + ("/" + mount + (" " + "HTTP/1.1"))));
  }

  lemma SourceLinePassword(mount: string, auth: string)
    requires ValidMount(mount) && BareWord(Password(auth)) && Password(auth) != ""
    ensures var line := RequestLine(Push, false, mount, auth);
            OneLine(line) && |line| >= 9 && RouteOf(line) == Source("/" + mount, Password(auth))
  {
    hide Word, OneLine, ScanRuns, CStr, ValidMount, Password, BareWord;
    MountWord(mount);
    Literals();
    BareIsWord(Password(auth));
    FourWordLine("SOURCE", Password(auth), "/" + mount, "HTTP/1.1");
    SourceText(Password(auth), mount);
  }

  lemma SourceText(secret: string, mount: string)
    ensures "SOURCE " + secret + " /" + mount + " HTTP/1.1"
         == "SOURCE" + (" " + (secret + (" " + ("/" + mount + (" " + "HTTP/1.1")))))
  {
    assert " /" + mount == " " + ("/" + mount);
    assert " HTTP/1.1" == " " + "HTTP/1.1" && "SOURCE " == "SOURCE" + " ";
  }

  lemma BareIsWord(word: string)
    requires BareWord(word) && word != ""
    ensures Word(word) && OneLine(word)
  {}

  // ----- The headers -----

  lemma PrintFirst(lines: seq<string>, tail: string)
    requires |lines| > 0
    ensures Print(lines) + tail == lines[0] + "\r\n" + (Print(lines[1..]) + tail)
  {}

  /** A printed header line goes into the map under its key. */
  lemma HeaderStored(key: string, value: string, rest: string, item: map<string, string>)
    requires |key| > 0 && ':' !in key && OneLine(key) && OneLine(value)
    requires |key + ": " + value| <= 1024
    ensures ReadHeaders((key + ": " + value) + "\r\n" + rest, item) == ReadHeaders(rest, item[key := value])
  {
    var line := key + ": " + value;
    assert OneLine(line);
    ReadPrintedLine(line, rest);
    CStrWhole(line);
    assert forall k | 0 <= k < |key| :: line[k] == key[k];
    assert line[|key|] == ':';
    assert FindChar(line, ':') == |key|;
    assert line[..|key|] == key && line[|key| + 2..] == value;
  }

  /** A line that is not a header: empty, without a colon, or too long. */
  predicate EndsHeaders(last: string) {
    '\n' !in last && (':' !in last || |last| > 1024)
  }

  lemma {:induction false} NoColonInCStr(s: string)
    requires ':' !in s
    ensures ':' !in CStr(s)
  {
    if |s| > 0 {
      NoColonInCStr(s[1..]);
    }
  }

  lemma LastLineEnds(last: string, rest: string, item: map<string, string>)
    requires EndsHeaders(last)
    ensures ReadHeaders(last + "\r\n" + rest, item) == Headers(item, rest)
  {
    ReadPrintedLine(last, rest);
    if ':' !in last {
      NoColonInCStr(last);
    }
  }

  function StoreAll(item: map<string, string>, fields: seq<(string, string)>): map<string, string>
    decreases |fields|
  {
    if |fields| == 0 then item else StoreAll(item[fields[0].0 := fields[0].1], fields[1..])
  }

  predicate GoodField(f: (string, string)) {
    |f.0| > 0 && ':' !in f.0 && OneLine(f.0) && OneLine(f.1) && |f.0 + ": " + f.1| <= 1024
  }

  /** Printed headers are read back, and the text behind the line that ends them is left alone. */
  lemma {:induction false} HeadersReadBack(fields: seq<(string, string)>, last: string, tail: string,
                                           item: map<string, string>)
    requires EndsHeaders(last) && forall i | 0 <= i < |fields| :: GoodField(fields[i])
    ensures ReadHeaders(Print(FieldLines(fields) + [last]) + tail, item) == Headers(StoreAll(item, fields), tail)
  {
    hide EndsHeaders;
    var lines := FieldLines(fields) + [last];
    PrintFirst(lines, tail);
    if |fields| == 0 {
      assert lines[1..] == [] && "" + tail == tail;
      LastLineEnds(last, tail, item);
    } else {
      assert GoodField(fields[0]);
      assert lines[1..] == FieldLines(fields[1..]) + [last];
      var rest := Print(FieldLines(fields[1..]) + [last]) + tail;
      HeaderStored(fields[0].0, fields[0].1, rest, item);
      HeadersReadBack(fields[1..], last, tail, item[fields[0].0 := fields[0].1]);
    }
  }

  predicate DistinctKeys(fields: seq<(string, string)>) {
    forall i, j | 0 <= i < j < |fields| :: fields[i].0 != fields[j].0
  }

  /** With distinct keys, every field is found under its key and nothing else is stored. */
  lemma {:induction false} StoredFields(item: map<string, string>, fields: seq<(string, string)>)
    requires DistinctKeys(fields)
    decreases |fields|
    ensures var stored := StoreAll(item, fields);
            && (forall i | 0 <= i < |fields| :: fields[i].0 in stored && stored[fields[i].0] == fields[i].1)
            && (forall k: string | (forall i | 0 <= i < |fields| :: fields[i].0 != k) ::
                  Lookup(stored, k) == Lookup(item, k) && (k in stored <==> k in item))
  {
    if |fields| > 0 {
      var rest := fields[1..];
      StoredFields(item[fields[0].0 := fields[0].1], rest);
      assert forall i | 0 < i < |fields| :: fields[i] == rest[i - 1];
      assert forall i | 0 <= i < |rest| :: rest[i] == fields[i + 1];
    }
  }

  // ----- Credentials -----

  lemma {:induction false} TokenWhole(s: string)
    requires forall i | 0 <= i < |s| :: !IsSpace(s[i])
    ensures Token(s) == s
  {
    if |s| > 0 {
      TokenWhole(s[1..]);
    }
  }

  lemma EncodedIsPlain(b64: Base64, auth: string)
    requires RoundTrips(b64) && IsCString(auth)
    ensures NoSpaceIn(EncodedAuth(b64, auth))
    ensures b64.decode(EncodedAuth(b64, auth)) == auth
  {
    assert forall i | 0 <= i < |auth| :: auth[i] != '\0';
    CStrWhole(auth);
    assert NoSpaceIn(b64.encode(auth));
  }

  /** Printed credentials decode to what was encoded. */
  lemma CredentialsReadBack(b64: Base64, auth: string)
    requires RoundTrips(b64) && IsCString(auth)
    ensures OneLine("Basic " + EncodedAuth(b64, auth))
    ensures DecodeBasic(b64, "Basic " + EncodedAuth(b64, auth)) == auth
  {
    EncodedIsPlain(b64, auth);
    BasicTokenReadBack(EncodedAuth(b64, auth));
  }

  lemma BasicTokenReadBack(enc: string)
    requires NoSpaceIn(enc)
    ensures OneLine("Basic " + enc) && Contains("Basic " + enc, "Basic ")
    ensures BasicToken(CStr("Basic " + enc)) == enc
  {
    var value := "Basic " + enc;
    assert OneLine("Basic ") && OneLine(enc);
    OneLineParts("Basic ", enc);
    CStrWhole(value);
    assert value[0..6] == "Basic " && OccursAt(value, "Basic ", 0);
    assert value[..5] == "Basic" && value[5..] == " " + enc;
    assert (" " + enc)[1..] == enc && SkipSpace(enc) == enc && SkipSpace(" " + enc) == enc;
    TokenWhole(enc);
  }

  // ----- The whole request -----

  lemma GoodFields(direction: Direction, version2: bool, mount: string, host: string, auth: string,
                   product: Product, b64: Base64)
    requires Printable(direction, version2, mount, host, auth, product, b64)
    ensures var fields := Fields(direction, version2, host, auth, product, b64);
            forall i | 0 <= i < |fields| :: GoodField(fields[i])
  {
    CredentialsReadBack(b64, auth);
    AgentOneLine(product);
    KeysAreGood();
  }

  lemma AgentOneLine(product: Product)
    requires OneLine(product.name) && OneLine(product.version)
    ensures OneLine(Agent(product))
  {}

  lemma KeysAreGood()
    ensures GoodField(("Ntrip-Version", "Ntrip/2.0")) && GoodField(("Connection", "close"))
    ensures GoodField(("Transfer-Encoding", "chunked"))
    ensures ':' !in "Host" && OneLine("Host") && ':' !in "User-Agent" && OneLine("User-Agent")
    ensures ':' !in "Authorization" && OneLine("Authorization")
    ensures ':' !in "Source-Agent" && OneLine("Source-Agent")
  {}

  lemma KeysDiffer()
    ensures "Ntrip-Version" != "Authorization" && "User-Agent" != "Connection"
  {
    assert "Ntrip-Version"[0] != "Authorization"[0] && "User-Agent"[0] != "Connection"[0];
  }

  lemma PullFieldsStored(version2: bool, host: string, auth: string, product: Product, b64: Base64)
    ensures var item := StoreAll(map[], Fields(Pull, version2, host, auth, product, b64));
            && Lookup(item, "Host") == (if version2 then host else "")
            && Lookup(item, "Ntrip-Version") == (if version2 then "Ntrip/2.0" else "")
            && "User-Agent" in item && item["User-Agent"] == Agent(product)
            && "Authorization" in item && item["Authorization"] == "Basic " + EncodedAuth(b64, auth)
            && Lookup(item, "Transfer-Encoding") == Lookup(item, "STR") == Lookup(item, "Ntrip-GGA") == ""
  {
    hide Agent, EncodedAuth;
    KeysDiffer();
    var fields := Fields(Pull, version2, host, auth, product, b64);
    StoredFields(map[], fields);
    if version2 {
      assert fields[0].0 == "Host" && fields[1].0 == "Ntrip-Version" && fields[2].0 == "User-Agent"
          && fields[3].0 == "Authorization";
    } else {
      assert fields[0].0 == "User-Agent" && fields[1].0 == "Authorization";
    }
  }

  lemma PostFieldsStored(host: string, auth: string, product: Product, b64: Base64)
    ensures var item := StoreAll(map[], Fields(Push, true, host, auth, product, b64));
            && Lookup(item, "Host") == host && Lookup(item, "Ntrip-Version") == "Ntrip/2.0"
            && "User-Agent" in item && item["User-Agent"] == Agent(product)
            && "Authorization" in item && item["Authorization"] == "Basic " + EncodedAuth(b64, auth)
            && Lookup(item, "Transfer-Encoding") == "chunked"
            && Lookup(item, "STR") == Lookup(item, "Ntrip-GGA") == ""
  {
    hide Agent, EncodedAuth;
    KeysDiffer();
    var fields := Fields(Push, true, host, auth, product, b64);
    StoredFields(map[], fields);
    assert fields[0].0 == "Host" && fields[1].0 == "Ntrip-Version" && fields[2].0 == "Authorization"
        && fields[3].0 == "User-Agent" && fields[4].0 == "Transfer-Encoding";
  }

  lemma SourceFieldsStored(host: string, auth: string, product: Product, b64: Base64)
    ensures var item := StoreAll(map[], Fields(Push, false, host, auth, product, b64));
            && "User-Agent" !in item && "Authorization" !in item
            && Lookup(item, "Source-Agent") == Agent(product)
            && Lookup(item, "Host") == Lookup(item, "Ntrip-Version") == Lookup(item, "Transfer-Encoding") == ""
            && Lookup(item, "STR") == Lookup(item, "Ntrip-GGA") == ""
  {
    var fields := Fields(Push, false, host, auth, product, b64);
    StoredFields(map[], fields);
    assert fields[0].0 == "Source-Agent";
  }

  /** What the printed headers have in common: an agent, credentials, and nothing about the mount point. */
  predicate Logs(item: map<string, string>, auth: string, product: Product, b64: Base64) {
    && "User-Agent" in item && item["User-Agent"] == Agent(product)
    && "Authorization" in item && item["Authorization"] == "Basic " + EncodedAuth(b64, auth)
    && Lookup(item, "STR") == Lookup(item, "Ntrip-GGA") == ""
  }

  lemma InfoOfLogin(mount: string, item: map<string, string>, auth: string, product: Product, b64: Base64)
    requires ExtractPath("/" + mount) == mount && ExtractPara("/" + mount) == "" && Logs(item, auth, product, b64)
    requires DecodeBasic(b64, "Basic " + EncodedAuth(b64, auth)) == auth
    ensures InfoOf("/" + mount, item, b64)
         == WithAuth(NO_INFO.(mountPoint := mount, httpHost := Lookup(item, "Host"), userAgent := Agent(product),
                              httpChunked := Lookup(item, "Transfer-Encoding"),
                              ntripVersion := Lookup(item, "Ntrip-Version")), auth, b64)
  {
    hide ExtractPath, ExtractPara, DecodeBasic, EncodedAuth, Agent;
  }

  lemma SourceInfoBack(mount: string, item: map<string, string>, auth: string, product: Product, b64: Base64)
    requires ExtractPath("/" + mount) == mount && ExtractPara("/" + mount) == ""
    requires "User-Agent" !in item && "Authorization" !in item && Lookup(item, "Source-Agent") == Agent(product)
    requires Lookup(item, "Host") == Lookup(item, "Ntrip-Version") == Lookup(item, "Transfer-Encoding") == ""
    requires Lookup(item, "STR") == Lookup(item, "Ntrip-GGA") == ""
    ensures WithSecret(InfoOf("/" + mount, item, b64), Password(auth)) == SourceInfo(mount, auth, product)
  {
    hide ExtractPath, ExtractPara, DecodeBasic, EncodedAuth, Agent, Password;
  }

  /** The record filled from the stored headers is the expected one. */
  lemma InfoReadBack(direction: Direction, version2: bool, mount: string, host: string, auth: string,
                     product: Product, b64: Base64)
    requires Printable(direction, version2, mount, host, auth, product, b64)
    ensures var item := StoreAll(map[], Fields(direction, version2, host, auth, product, b64));
            var info := InfoOf("/" + mount, item, b64);
            match direction
            case Pull => info == PullInfo(version2, mount, host, auth, product, b64)
            case Push => if version2 then info == PostInfo(mount, host, auth, product, b64)
                         else WithSecret(info, Password(auth)) == SourceInfo(mount, auth, product)
  {
    hide Fields, StoreAll, Agent, EncodedAuth, Password, InfoOf, DecodeBasic, ExtractPath, ExtractPara;
    MountWord(mount);
    CredentialsReadBack(b64, auth);
    var item := StoreAll(map[], Fields(direction, version2, host, auth, product, b64));
    match direction {
      case Pull =>
        PullFieldsStored(version2, host, auth, product, b64);
        InfoOfLogin(mount, item, auth, product, b64);
      case Push =>
        if version2 {
          PostFieldsStored(host, auth, product, b64);
          InfoOfLogin(mount, item, auth, product, b64);
        } else {
          SourceFieldsStored(host, auth, product, b64);
          SourceInfoBack(mount, item, auth, product, b64);
        }
    }
  }

  /** A good request line is taken off the buffer and routed. */
  lemma ProcessRoutes(opt: ListenerOpt, core: Core, b64: Base64, line: string, rest: string)
    requires OneLine(line) && 9 <= |line| <= 255
    ensures Process(opt, core, b64, line + "\r\n" + rest) == HandleRoute(RouteOf(line), opt, core, b64, rest)
  {
    ReadPrintedLine(line, rest);
  }

  /** The text behind the request line: the headers, the empty line, and whatever follows. */
  function Behind(direction: Direction, version2: bool, host: string, auth: string,
                  product: Product, b64: Base64, tail: string): string {
    Print(FieldLines(Fields(direction, version2, host, auth, product, b64)) + [""]) + tail
  }

  lemma RequestSplits(direction: Direction, version2: bool, mount: string, host: string, auth: string,
                      product: Product, b64: Base64, tail: string)
    ensures BuildRequest(direction, version2, mount, host, auth, product, b64) + tail
         == RequestLine(direction, version2, mount, auth) + "\r\n"
            + Behind(direction, version2, host, auth, product, b64, tail)
  {
    var line := RequestLine(direction, version2, mount, auth);
    var fieldLines := FieldLines(Fields(direction, version2, host, auth, product, b64));
    var lines := [line] + fieldLines + [""];
    PrintFirst(lines, tail);
    assert lines[1..] == fieldLines + [""];
  }

  /** The record that the listener fills behind the request line. */
  lemma HeadersUnderstood(direction: Direction, version2: bool, mount: string, host: string, auth: string,
                          product: Product, b64: Base64, tail: string)
    requires Printable(direction, version2, mount, host, auth, product, b64)
    ensures ReadHeaders(Behind(direction, version2, host, auth, product, b64, tail), map[])
         == Headers(StoreAll(map[], Fields(direction, version2, host, auth, product, b64)), tail)
  {
    GoodFields(direction, version2, mount, host, auth, product, b64);
    HeadersReadBack(Fields(direction, version2, host, auth, product, b64), "", tail, map[]);
  }

  /** Without a position header only the tail counts, and the secret does not matter. */
  lemma TailLocates(info: ConnectInfo, tail: string, core: Core, secret: string)
    requires info.ntripGga == "" && info.lat == 0.0 && info.lon == 0.0
    ensures Located(info, tail, core) == WithTail(info, tail, core)
    ensures WithSecret(Located(info, tail, core), secret) == WithTail(WithSecret(info, secret), tail, core)
  {}

  lemma NoPosition(url: string, item: map<string, string>, b64: Base64)
    ensures var info := InfoOf(url, item, b64);
            info.lat == 0.0 && info.lon == 0.0 && info.ntripGga == Lookup(item, "Ntrip-GGA")
  {}

  lemma NoGgaHeader(direction: Direction, version2: bool, host: string, auth: string, product: Product, b64: Base64)
    ensures Lookup(StoreAll(map[], Fields(direction, version2, host, auth, product, b64)), "Ntrip-GGA") == ""
  {
    hide Fields, StoreAll, Agent, EncodedAuth;
    match direction {
      case Pull => PullFieldsStored(version2, host, auth, product, b64);
      case Push =>
        if version2 {
          PostFieldsStored(host, auth, product, b64);
        } else {
          SourceFieldsStored(host, auth, product, b64);
        }
    }
  }

  lemma RouteUnderstood(opt: ListenerOpt, core: Core, direction: Direction, version2: bool, mount: string,
                        host: string, auth: string, product: Product, b64: Base64, tail: string, route: Route)
    requires Printable(direction, version2, mount, host, auth, product, b64)
    requires route == RouteOf(RequestLine(direction, version2, mount, auth))
    ensures var parsed := HandleRoute(route, opt, core, b64, Behind(direction, version2, host, auth, product, b64, tail));
            && parsed.outcome == Understood(opt, core, direction, version2, mount, host, auth, product, b64, tail)
            && (direction == Pull || opt.serverLogin ==> parsed.rest == tail)
  {
    hide Fields, StoreAll, ReadHeaders, Behind, RequestLine, RouteOf, Password, Located, WithTail, InfoOf;
    var item := StoreAll(map[], Fields(direction, version2, host, auth, product, b64));
    NoGgaHeader(direction, version2, host, auth, product, b64);
    NoPosition("/" + mount, item, b64);
    TailLocates(InfoOf("/" + mount, item, b64), tail, core, Password(auth));
    RequestLineRoutes(direction, version2, mount, auth);
    MountWord(mount);
    HeadersUnderstood(direction, version2, mount, host, auth, product, b64, tail);
    InfoReadBack(direction, version2, mount, host, auth, product, b64);
  }

  /** A listener that receives a relay's request understands exactly what the relay was told: the kind
      of login, mount point, host, version, chunked flag and credentials, and the position if what follows
      the request holds one. It consumes the request and
      nothing behind it, unless a handler rejects it before it looks at the headers. */
  lemma RequestUnderstood(opt: ListenerOpt, core: Core, direction: Direction, version2: bool, mount: string,
                          host: string, auth: string, product: Product, b64: Base64, tail: string)
    requires Printable(direction, version2, mount, host, auth, product, b64)
    ensures var parsed := Process(opt, core, b64, BuildRequest(direction, version2, mount, host, auth, product, b64) + tail);
            && parsed.outcome == Understood(opt, core, direction, version2, mount, host, auth, product, b64, tail)
            && (direction == Pull || opt.serverLogin ==> parsed.rest == tail)
  {
    RequestSplits(direction, version2, mount, host, auth, product, b64, tail);
    RequestLineRoutes(direction, version2, mount, auth);
    ProcessRoutes(opt, core, b64, RequestLine(direction, version2, mount, auth),
                  Behind(direction, version2, host, auth, product, b64, tail));
    RouteUnderstood(opt, core, direction, version2, mount, host, auth, product, b64, tail,
                    RouteOf(RequestLine(direction, version2, mount, auth)));
  }
}
