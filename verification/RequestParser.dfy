/** The listener's side of a request: reading the request line and the headers from the connection's
    buffer, and deciding what kind of login it is. */
module RequestParser {
  import opened EvBuffer
  import opened Options
  import opened RequestPrinter
  import opened Sequences

  datatype ConnectType = Unknown | SourceTable | Server | Client | Nearest

  datatype ConnectInfo = ConnectInfo(
    kind: ConnectType, mountPoint: string, mountPara: string,
    httpHost: string, httpChunked: string, userAgent: string, mountInfo: string,
    ntripVersion: string, ntripGga: string,
    ntripAuth: string, userBase64: string, userName: string, userPwd: string, lat: real, lon: real)

  const NO_INFO := ConnectInfo(Unknown, "", "", "", "", "", "", "", "", "", "", "", "", 0.0, 0.0)

  datatype ListenerOpt = ListenerOpt(headerNoCrlf: bool, sourceLogin: bool, clientLogin: bool, serverLogin: bool)

  /** The caster core's answers about mount-point names, and the position that a text with a GGA sentence
      gives; how such a sentence is scanned is not part of this model. */
  datatype Core = Core(nearest: string -> bool, isAlias: string -> bool, position: string -> Option<(real, real)>)

  datatype AuthType = AuthSource | AuthClient | AuthServer

  /** How a request ends: refused as unreadable, rejected by a handler with its return code, accepted
      without credentials, or handed to the verifier. */
  datatype Outcome =
    | Unsupported
    | Rejected(code: int)
    | Accepted(info: ConnectInfo)
    | Verify(info: ConnectInfo, authType: AuthType)

  // ----- The request line -----

  predicate InRun(c: char) {
    c != ' ' && c != '|' && c != '\n'
  }

  /** `%[^ |\n]`: the longest run of other characters. */
  function Run(s: string): (n: nat)
    ensures n <= |s| && (forall i | 0 <= i < n :: InRun(s[i])) && (n < |s| ==> !InRun(s[n]))
  {
    if |s| == 0 || !InRun(s[0]) then 0 else 1 + Run(s[1..])
  }

  /** `sscanf` with `n` such runs separated by white space; runs that are not found stay empty. */
  function ScanRuns(s: string, n: nat): (ele: seq<string>)
    ensures |ele| == n
    decreases n
  {
    if n == 0 then []
    else if Run(s) == 0 then seq(n, _ => "")
    else [s[..Run(s)]] + ScanRuns(SkipSpace(s[Run(s)..]), n - 1)
  }

  datatype Route = Bad | Get(url: string) | Post(url: string) | Source(url: string, secret: string)

  predicate IsHttp1(s: string) {
    s == "HTTP/1.1" || s == "HTTP/1.0"
  }

  function RouteOf(header: string): Route {
    var ele := ScanRuns(CStr(header), 4);
    if ele[0] == "SOURCE" then
      if ele[3] != "" then
        if IsHttp1(ele[3]) then Source(ele[2], ele[1]) else Bad
      else if ele[2] != "" then
        if IsHttp1(ele[2]) then Source(ele[1], "") else Source(ele[2], ele[1])
      else if ele[1] != "" then
        if IsHttp1(ele[1]) then Bad else Source(ele[1], "")
      else Bad
    else if IsHttp1(ele[2]) then
      if ele[0] == "GET" then Get(ele[1]) else if ele[0] == "POST" then Post(ele[1]) else Bad
    else Bad
  }

  // ----- The address -----

  predicate MountChar(c: char) {
    'a' <= c <= 'z' || 'A' <= c <= 'Z' || '0' <= c <= '9' || c == '_' || c == '.' || c == '-'
  }

  predicate ValidMount(mount: string) {
    forall i | 0 <= i < |mount| :: MountChar(mount[i])
  }

  function Rooted(path: string): (p: string)
    ensures |p| > 0 && p[0] == '/'
  {
    if |path| > 0 && path[0] == '/' then path else "/" + path
  }

  /** The part before the question mark; it still has to be checked. */
  function ExtractPath(path: string): string {
    var p := Rooted(path);
    p[1..FindChar(p, '?')]
  }

  function ExtractPara(path: string): string {
    var p := Rooted(path);
    var x := FindChar(p, '?');
    if x < |p| then p[x + 1..] else ""
  }

  // ----- The headers -----

  datatype Headers = Headers(item: map<string, string>, rest: string)

  /** One header line stored under its key; the character after the colon is skipped. */
  function Store(item: map<string, string>, line: string): map<string, string> {
    var x := FindChar(line, ':');
    if x == |line| then item
    else item[line[..x] := if x + 2 > |line| then "" else line[x + 2..]]
  }

  /** The header lines up to an empty line, a line without a colon, or one that is too long. */
  function ReadHeaders(buf: string, item: map<string, string>): Headers
    decreases |buf|
  {
    match ReadLine(buf)
    case NoLine => Headers(item, buf)
    case Line(text, rest) =>
      var line := CStr(text);
      if |text| > 1024 || |line| == 0 || FindChar(line, ':') == |line| then Headers(item, rest)
      else ReadHeaders(rest, Store(item, line))
  }

  function Lookup(item: map<string, string>, key: string): string {
    if key in item then item[key] else ""
  }

  function Token(s: string): string {
    if |s| == 0 || IsSpace(s[0]) then "" else [s[0]] + Token(s[1..])
  }

  /** `sscanf(value, "Basic %s", auth)`: the word must be at the start. */
  function BasicToken(value: string): string {
    if |value| >= 5 && value[..5] == "Basic" then Token(SkipSpace(value[5..])) else ""
  }

  function DecodeBasic(b64: Base64, value: string): string {
    b64.decode(if Contains(value, "Basic ") then BasicToken(CStr(value)) else "")
  }

  function WithCredentials(info: ConnectInfo, item: map<string, string>, b64: Base64): ConnectInfo {
    if "Authorization" !in item then info
    else
      var decoded := DecodeBasic(b64, item["Authorization"]);
      var x := FindChar(decoded, ':');
      if x == |decoded| then info
      else info.(ntripAuth := item["Authorization"], userBase64 := decoded,
                 userName := decoded[..x], userPwd := decoded[x + 1..])
  }

  function InfoOf(url: string, item: map<string, string>, b64: Base64): ConnectInfo {
    var info := NO_INFO.(
      mountPoint := ExtractPath(url), mountPara := ExtractPara(url),
      httpHost := Lookup(item, "Host"), httpChunked := Lookup(item, "Transfer-Encoding"),
      userAgent := if "User-Agent" in item then item["User-Agent"] else Lookup(item, "Source-Agent"),
      mountInfo := Lookup(item, "STR"), ntripVersion := Lookup(item, "Ntrip-Version"),
      ntripGga := Lookup(item, "Ntrip-GGA"));
    WithCredentials(info, item, b64)
  }

  function At(info: ConnectInfo, position: Option<(real, real)>): ConnectInfo {
    if position.Some? then info.(lat := position.value.0, lon := position.value.1) else info
  }

  /** The position comes from the header, or, if that gives none, from what follows the request, which is
      then kept as it is. */
  function Located(info: ConnectInfo, rest: string, core: Core): ConnectInfo {
    var byHeader := if info.ntripGga == "" then info else At(info, core.position(info.ntripGga));
    var behind := if 0 < |rest| < 4096 then core.position(rest) else None;
    if byHeader.lat == 0.0 && byHeader.lon == 0.0 && behind.Some? then At(byHeader, behind).(ntripGga := rest) else byHeader
  }

  // ----- The handlers -----

  datatype Parsed = Parsed(outcome: Outcome, rest: string)

  function GetOutcome(opt: ListenerOpt, core: Core, info: ConnectInfo): Outcome {
    if info.mountPoint == "" then
      if !opt.sourceLogin then Rejected(1)
      else if info.userName == "" && info.userPwd == "" then Accepted(info.(kind := SourceTable))
      else Verify(info.(kind := SourceTable), AuthSource)
    else if !opt.clientLogin then Rejected(1)
    else Verify(info.(kind := if core.nearest(info.mountPoint) then Nearest else Client), AuthClient)
  }

  function ServerOutcome(core: Core, info: ConnectInfo): Outcome {
    if core.nearest(info.mountPoint) then Rejected(2)
    else if core.isAlias(info.mountPoint) then Rejected(3)
    else Verify(info.(kind := Server), AuthServer)
  }

  function WithSecret(info: ConnectInfo, secret: string): ConnectInfo {
    if secret == "" then info
    else info.(userBase64 := secret + ":" + secret, userName := secret, userPwd := secret)
  }

  /** What the listener makes of a request line and the buffer behind it. */
  function HandleRoute(route: Route, opt: ListenerOpt, core: Core, b64: Base64, buf: string): Parsed {
    if route.Bad? then Parsed(Unsupported, buf)
    else if !route.Get? && !opt.serverLogin then Parsed(Rejected(1), buf)
    else if !ValidMount(ExtractPath(route.url)) then Parsed(Unsupported, buf)
    else
      var headers := ReadHeaders(buf, map[]);
      var info := Located(InfoOf(route.url, headers.item, b64), headers.rest, core);
      Parsed(match route
             case Get(_) => GetOutcome(opt, core, info)
             case Post(_) => ServerOutcome(core, info)
             case Source(_, secret) => ServerOutcome(core, WithSecret(info, secret)),
             headers.rest)
  }

  /** What the listener makes of everything that has arrived on a connection. */
  function Process(opt: ListenerOpt, core: Core, b64: Base64, buf: string): Parsed {
    var line := ReadLine(buf);
    if line.NoLine? && !(opt.headerNoCrlf && |buf| < 255) then Parsed(Unsupported, buf)
    else
      var header := if line.NoLine? then buf else line.text;
      var rest := if line.NoLine? then "" else line.rest;
      if |header| > 255 || |header| < 9 then Parsed(Unsupported, rest)
      else HandleRoute(RouteOf(header), opt, core, b64, rest)
  }

  class Listener {
    const opt: ListenerOpt
    const core: Core
    const b64: Base64
    var evbuf: string

    constructor (opt: ListenerOpt, core: Core, b64: Base64, evbuf: string)
      ensures this.opt == opt && this.core == core && this.b64 == b64 && this.evbuf == evbuf
    {
      this.opt, this.core, this.b64, this.evbuf := opt, core, b64, evbuf;
    }

    /** The loop of `decode_bufferevent_req` that consumes the header lines. */
    method DecodeHeaders() returns (item: map<string, string>)
      modifies `evbuf
      ensures Headers(item, evbuf) == ReadHeaders(old(evbuf), map[])
    {
      item := map[];
      while true
        invariant ReadHeaders(evbuf, item) == ReadHeaders(old(evbuf), map[])
        decreases |evbuf|
      {
        var line := ReadLine(evbuf);
        if line.NoLine? {
          break;
        }
        evbuf := line.rest;
        if |line.text| > 1024 {
          break;
        }
        var keyValue := CStr(line.text);
        if |keyValue| == 0 {
          break;
        }
        var x := FindChar(keyValue, ':');
        if x == |keyValue| {
          break;
        }
        if x + 2 > |keyValue| {
          item := item[keyValue[..x] := ""];
        } else {
          item := item[keyValue[..x] := keyValue[x + 2..]];
        }
      }
    }

    method ProcessGet(url: string) returns (outcome: Outcome)
      modifies `evbuf
      ensures Parsed(outcome, evbuf) == HandleRoute(Get(url), opt, core, b64, old(evbuf))
    {
      if !ValidMount(ExtractPath(url)) {
        return Unsupported;
      }
      var item := DecodeHeaders();
      outcome := GetOutcome(opt, core, Located(InfoOf(url, item, b64), evbuf, core));
    }

    method ProcessPost(url: string) returns (outcome: Outcome)
      modifies `evbuf
      ensures Parsed(outcome, evbuf) == HandleRoute(Post(url), opt, core, b64, old(evbuf))
    {
      if !opt.serverLogin {
        return Rejected(1);
      }
      if !ValidMount(ExtractPath(url)) {
        return Unsupported;
      }
      var item := DecodeHeaders();
      outcome := ServerOutcome(core, Located(InfoOf(url, item, b64), evbuf, core));
    }

    method ProcessSource(url: string, secret: string) returns (outcome: Outcome)
      modifies `evbuf
      ensures Parsed(outcome, evbuf) == HandleRoute(Source(url, secret), opt, core, b64, old(evbuf))
    {
      if !opt.serverLogin {
        return Rejected(1);
      }
      if !ValidMount(ExtractPath(url)) {
        return Unsupported;
      }
      var item := DecodeHeaders();
      outcome := ServerOutcome(core, WithSecret(Located(InfoOf(url, item, b64), evbuf, core), secret));
    }

    method ProcessBevRequest() returns (outcome: Outcome)
      modifies `evbuf
      ensures Parsed(outcome, evbuf) == Process(opt, core, b64, old(evbuf))
    {
      var line := ReadLine(evbuf);
      var header := "";
      if line.Line? {
        header := line.text;
        evbuf := line.rest;
      } else if opt.headerNoCrlf && |evbuf| < 255 {
        header := evbuf;
        evbuf := "";
      } else {
        return Unsupported;
      }
      if |header| > 255 || |header| < 9 {
        return Unsupported;
      }
      match RouteOf(header) {
        case Bad => outcome := Unsupported;
        case Get(url) => outcome := ProcessGet(url);
        case Post(url) => outcome := ProcessPost(url);
        case Source(url, secret) => outcome := ProcessSource(url, secret);
      }
    }
  }
}
