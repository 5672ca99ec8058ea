/** The parts of libevent's `evbuffer` and of the C library that the wire code relies on. A byte is
    modelled as a character. */
module EvBuffer {
  import opened Options
  import opened Sequences

  datatype Line = NoLine | Line(text: string, rest: string)

  /** `evbuffer_readln` with `EVBUFFER_EOL_CRLF`: a line ends at the first line feed, and one carriage
      return just before it belongs to the line end. */
  function ReadLine(buf: string): Line {
    var i := FindChar(buf, '\n');
    if i == |buf| then NoLine
    else Line(if i > 0 && buf[i - 1] == '\r' then buf[..i - 1] else buf[..i], buf[i + 1..])
  }

  /** A line that was printed with CRLF is read back whole. */
  lemma ReadPrintedLine(text: string, rest: string)
    requires '\n' !in text
    ensures ReadLine(text + "\r\n" + rest) == Line(text, rest)
  {
    var buf := text + "\r\n" + rest;
    var i := |text| + 1;
    assert forall k | 0 <= k < |text| :: buf[k] == text[k];
    FindCharUnique(buf, '\n', i);
    assert buf[..i - 1] == text && buf[i + 1..] == rest;
  }

  lemma LineSplits(buf: string)
    requires ReadLine(buf).Line?
    ensures var rest := ReadLine(buf).rest; |rest| < |buf| && buf == buf[..|buf| - |rest|] + rest
  {}

  lemma NoLineFeedNoLine(buf: string)
    requires '\n' !in buf
    ensures ReadLine(buf) == NoLine
  {}

  /** White space for `scanf`. */
  predicate IsSpace(c: char) {
    c in " \t\n\r" || c == '\U{000B}' || c == '\U{000C}'
  }

  function SkipSpace(s: string): (t: string)
    ensures |t| <= |s|
  {
    if |s| > 0 && IsSpace(s[0]) then SkipSpace(s[1..]) else s
  }

  /** What a C string function sees: the characters before the first NUL. */
  function CStr(s: string): string {
    if |s| == 0 || s[0] == '\0' then "" else [s[0]] + CStr(s[1..])
  }

  lemma {:induction false} CStrWhole(s: string)
    requires '\0' !in s
    ensures CStr(s) == s
  {
    if |s| > 0 {
      CStrWhole(s[1..]);
    }
  }

  /** Only white space. */
  predicate White(s: string) {
    forall i | 0 <= i < |s| :: s[i] in " \t\n\r\U{000B}\U{000C}"
  }

  lemma {:induction false} WhiteSkipped(white: string, rest: string)
    requires White(white) && (rest == "" || !IsSpace(rest[0]))
    ensures SkipSpace(white + rest) == rest
  {
    if white == "" {
      assert white + rest == rest;
    } else {
      assert (white + rest)[1..] == white[1..] + rest;
      WhiteSkipped(white[1..], rest);
    }
  }

  lemma {:induction false} CStrGoesOn(front: string, junk: string)
    requires '\0' !in front
    ensures CStr(front + junk) == front + CStr(junk)
  {
    if front == "" {
      assert front + junk == junk;
    } else {
      assert (front + junk)[1..] == front[1..] + junk;
      CStrGoesOn(front[1..], junk);
    }
  }

  lemma {:induction false} CStrPrefix(s: string)
    ensures CStr(s) <= s
  {
    if s != "" {
      CStrPrefix(s[1..]);
    }
  }
}
