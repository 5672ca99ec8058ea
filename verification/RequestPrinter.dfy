/** The NTRIP request a relay sends to the caster it pulls from or pushes to. */
module RequestPrinter {
  import opened EvBuffer
  import opened Sequences

  datatype Direction = Pull | Push

  /** The name and version of this software, as printed in agent headers. */
  datatype Product = Product(name: string, version: string)

  /** The base64 functions; their implementation is not part of this model. */
  datatype Base64 = Base64(encode: string -> string, decode: string -> string)

  /** Bytes without a NUL. */
  predicate IsCString(s: string) {
    forall i | 0 <= i < |s| :: 0 < s[i] as int < 256
  }

  predicate NoSpaceIn(s: string) {
    forall i | 0 <= i < |s| :: s[i] != '\0' && !IsSpace(s[i])
  }

  /** What RFC 4648 promises: decoding undoes encoding, and encoded text has no white space. */
  ghost predicate RoundTrips(b64: Base64) {
    && (forall s: string | IsCString(s) :: b64.decode(b64.encode(s)) == s)
    && (forall s: string :: NoSpaceIn(b64.encode(s)))
    && b64.decode("") == ""
  }

  /** The clear-text password of "user:password"; text without a colon is all password. */
  function Password(auth: string): string {
    var colon := FindChar(auth, ':');
    if colon < |auth| then auth[colon + 1..] else auth
  }

  /** Lines, each ended by CRLF. */
  function Print(lines: seq<string>): string {
    if |lines| == 0 then "" else lines[0] + "\r\n" + Print(lines[1..])
  }

  function Agent(product: Product): string {
    "NTRIP " + product.name + "/" + product.version
  }

  function EncodedAuth(b64: Base64, auth: string): string {
    if auth == "" then "" else b64.encode(CStr(auth))
  }

  function RequestLine(direction: Direction, version2: bool, mount: string, auth: string): string {
    match direction
    case Pull => "GET /" + mount + if version2 then " HTTP/1.1" else " HTTP/1.0"
    case Push => if version2 then "POST /" + mount + " HTTP/1.1"
                 else "SOURCE " + Password(auth) + " /" + mount + " HTTP/1.1"
  }

  /** The headers, as key and value. */
  function Fields(direction: Direction, version2: bool, host: string, auth: string,
                  product: Product, b64: Base64): seq<(string, string)> {
    var credentials := "Basic " + EncodedAuth(b64, auth);
    match direction
    case Pull =>
      if version2 then
        [("Host", host), ("Ntrip-Version", "Ntrip/2.0"), ("User-Agent", Agent(product)),
         ("Authorization", credentials), ("Connection", "close")]
      else [("User-Agent", Agent(product)), ("Authorization", credentials)]
    case Push =>
      if version2 then
        [("Host", host), ("Ntrip-Version", "Ntrip/2.0"), ("Authorization", credentials),
         ("User-Agent", Agent(product)), ("Transfer-Encoding", "chunked"), ("Connection", "close")]
      else [("Source-Agent", Agent(product))]
  }

  function FieldLines(fields: seq<(string, string)>): seq<string> {
    if |fields| == 0 then [] else [fields[0].0 + ": " + fields[0].1] + FieldLines(fields[1..])
  }

  /** `build_ntrip_request`: the request line, the headers, and an empty line. */
  function BuildRequest(direction: Direction, version2: bool, mount: string, host: string, auth: string,
                        product: Product, b64: Base64): string {
    Print([RequestLine(direction, version2, mount, auth)]
          + FieldLines(Fields(direction, version2, host, auth, product, b64)) + [""])
  }
}
