/**
 The incremental HTTP response parser: one step for each character, so that input may arrive in pieces. Characters are
 bytes; those above 127 are negative in the original and belong to no character class. Version numbers do not overflow.
 */
module HttpResponse {
  import CircularIndex
  import opened Options
  import opened Sequences

  datatype Header = Header(name: string, value: string)

  datatype Response = Response(versionMajor: int, versionMinor: int, headers: seq<Header>, content: string,
    keepAlive: bool,
                               statusCode: nat, status: string)

  datatype State =
    | StatusStart | Ht | Htt | Http | Slash | MajorStart | Major | MinorStart | Minor | StatusCodeStart | StatusCode
    | StatusTextStart | StatusText | NewLine | HeaderLineStart | HeaderLws | HeaderName | SpaceBeforeHeaderValue
    | HeaderValue | ExpectingNewline2 | ExpectingNewline3 | Post | ChunkSize | ChunkExtensionName
    | ChunkExtensionValue | ChunkSizeNewLine | ChunkSizeNewLine2 | ChunkSizeNewLine3 | ChunkTrailerName
    | ChunkTrailerValue | ChunkDataNewLine1 | ChunkDataNewLine2 | ChunkData

  datatype Parser = Parser(state: State, contentSize: nat, chunkSizeStr: string, chunkSize: nat, chunked: bool,
    resp: Response)

  datatype Result = Completed | Incompleted | Error

  const EMPTY_RESPONSE := Response(0, 0, [], "", false, 0, "")
  const NEW_PARSER := Parser(StatusStart, 0, "", 0, false, EMPTY_RESPONSE)

  const SIZE_RANGE: int := 0x1_0000_0000_0000_0000
  const LONG_MAX: nat := 0x7fff_ffff_ffff_ffff

  // ---------------------------------------------------------------- character classes and numbers

  predicate IsDigit(c: char) { '0' <= c <= '9' }

  predicate IsAlpha(c: char) { 'a' <= c <= 'z' || 'A' <= c <= 'Z' }

  predicate IsAlnum(c: char) { IsDigit(c) || IsAlpha(c) }

  predicate IsChar(c: char) { c as int <= 127 }

  predicate IsControl(c: char) { c as int <= 31 || c as int == 127 }

  predicate IsSpecial(c: char) {
    c in "()<>@,;:\\\"/[]?={} \t"
  }

  predicate NameChar(c: char) {
    IsChar(c) && !IsControl(c) && !IsSpecial(c)
  }

  function Lower(c: char): char {
    if 'A' <= c <= 'Z' then (c as int + 32) as char else c
  }

  predicate SameIgnoringCase(a: string, b: string) {
    |a| == |b| && forall i :: 0 <= i < |a| ==> Lower(a[i]) == Lower(b[i])
  }

  function DigitValue(c: char): nat
    requires IsDigit(c)
  {
    c as int - '0' as int
  }

  predicate IsHexDigit(c: char) {
    IsDigit(c) || 'a' <= c <= 'f' || 'A' <= c <= 'F'
  }

  function HexDigitValue(c: char): (v: nat)
    requires IsHexDigit(c)
    ensures v < 16
  {
    if IsDigit(c) then DigitValue(c) else if 'a' <= c <= 'f' then c as int - 'a' as int + 10
        else c as int - 'A' as int + 10
  }

  function HexPrefix(s: string): (r: string)
    ensures |r| <= |s| && forall i :: 0 <= i < |r| ==> IsHexDigit(r[i])
  {
    if s == "" || !IsHexDigit(s[0]) then "" else [s[0]] + HexPrefix(s[1..])
  }

  function HexValue(s: string): nat
    requires forall i :: 0 <= i < |s| ==> IsHexDigit(s[i])
  {
    if s == "" then 0 else 16 * HexValue(s[..|s| - 1]) + HexDigitValue(s[|s| - 1])
  }

  /** strtol in base 16 on letters and digits: a 0x in front of a digit is skipped, and too large a value is cut off. */
  function StrtolHex(s: string): nat {
    var digits := if |s| >= 3 && s[0] == '0' && (s[1] == 'x' || s[1] == 'X') && IsHexDigit(s[2]) then s[2..] else s;
    var v := HexValue(HexPrefix(digits));
    if v > LONG_MAX then LONG_MAX else v
  }

  function DecimalPrefix(s: string): (r: string)
    ensures |r| <= |s| && forall i :: 0 <= i < |r| ==> IsDigit(r[i])
  {
    if s == "" || !IsDigit(s[0]) then "" else [s[0]] + DecimalPrefix(s[1..])
  }

  function DecimalValue(s: string): nat
    requires forall i :: 0 <= i < |s| ==> IsDigit(s[i])
  {
    if s == "" then 0 else 10 * DecimalValue(s[..|s| - 1]) + DigitValue(s[|s| - 1])
  }

  function TrimLeft(s: string): string {
    if s != "" && (s[0] == ' ' || 9 <= s[0] as int <= 13) then TrimLeft(s[1..]) else s
  }

  /** A long truncated to 32 bits and extended by its sign to a size. */
  function AsSize(v: int): nat {
    var low := v % 0x1_0000_0000;
    (if low < 0x8000_0000 then low else low - 0x1_0000_0000) % SIZE_RANGE
  }

  /**
   atoi, stored in a size_t: leading space, a sign, digits; cut off at the range of long, then truncated to 32 bits.
   */
  function ContentSize(s: string): nat {
    var t := TrimLeft(s);
    var negative := t != "" && t[0] == '-';
    var digits := if t != "" && (t[0] == '-' || t[0] == '+') then t[1..] else t;
    var v := DecimalValue(DecimalPrefix(digits));
    var long: int := if negative then (if v > LONG_MAX + 1 then -(LONG_MAX as int) - 1 else -(v as int))
        else if v > LONG_MAX then LONG_MAX else v;
    AsSize(long)
  }

  // ---------------------------------------------------------------- one step

  function Goto(p: Parser, state: State): (Result, Parser) {
    (Incompleted, p.(state := state))
  }

  function Fail(p: Parser): (Result, Parser) {
    (Error, p)
  }

  function GotoIf(p: Parser, ok: bool, state: State): (Result, Parser) {
    if ok then Goto(p, state) else Fail(p)
  }

  function NamePlus(r: Response, c: char): Response {
    if r.headers == [] then r else
    var n := |r.headers| - 1;
    r.(headers := r.headers[n := r.headers[n].(name := r.headers[n].name + [c])])
  }

  function ValuePlus(r: Response, c: char): Response {
    if r.headers == [] then r else
    var n := |r.headers| - 1;
    r.(headers := r.headers[n := r.headers[n].(value := r.headers[n].value + [c])])
  }

  /** The headers that decide how long the body is. */
  function NoteHeader(p: Parser): Parser {
    if p.resp.headers == [] then p else
    var h := p.resp.headers[|p.resp.headers| - 1];
    if SameIgnoringCase(h.name, "Content-Length") then p.(contentSize := ContentSize(h.value))
    else if SameIgnoringCase(h.name, "Transfer-Encoding")
      && SameIgnoringCase(h.value, "chunked") then p.(chunked := true)
    else p
  }

  function FirstConnection(headers: seq<Header>): Option<Header> {
    if headers == [] then None
    else if SameIgnoringCase(headers[0].name, "Connection") then Some(headers[0])
    else FirstConnection(headers[1..])
  }

  function NoteKeepAlive(r: Response): Response {
    var connection := FirstConnection(r.headers);
    if connection.Some? then r.(keepAlive := SameIgnoringCase(connection.value.value, "Keep-Alive"))
    else if r.versionMajor > 1 || (r.versionMajor == 1 && r.versionMinor == 1) then r.(keepAlive := true)
    else r
  }

  function StatusLineStep(p: Parser, c: char): (Result, Parser) {
    var r := p.resp;
    match p.state
    case StatusStart => GotoIf(p, c == 'H', Ht)
    case Ht => GotoIf(p, c == 'T', Htt)
    case Htt => GotoIf(p, c == 'T', Http)
    case Http => GotoIf(p, c == 'P', Slash)
    case Slash =>
      if c == '/' then Goto(p.(resp := r.(versionMajor := 0, versionMinor := 0)), MajorStart) else Fail(p)
    case MajorStart => if IsDigit(c) then Goto(p.(resp := r.(versionMajor := DigitValue(c))), Major) else Fail(p)
    case Major =>
      if c == '.' then Goto(p, MinorStart)
      else if IsDigit(c) then Goto(p.(resp := r.(versionMajor := r.versionMajor * 10 + DigitValue(c))), Major)
      else Fail(p)
    case MinorStart => if IsDigit(c) then Goto(p.(resp := r.(versionMinor := DigitValue(c))), Minor) else Fail(p)
    case Minor =>
      if c == ' ' then Goto(p.(resp := r.(statusCode := 0)), StatusCodeStart)
      else if IsDigit(c) then Goto(p.(resp := r.(versionMinor := r.versionMinor * 10 + DigitValue(c))), Minor)
      else Fail(p)
    case StatusCodeStart => if IsDigit(c) then Goto(p.(resp := r.(statusCode := DigitValue(c))), StatusCode)
      else Fail(p)
    case StatusCode =>
      if IsDigit(c) then Goto(p.(resp := r.(statusCode := (r.statusCode * 10 + DigitValue(c)) % 0x1_0000_0000)),
          StatusCode)
      else GotoIf(p, 100 <= r.statusCode <= 999 && c == ' ', StatusTextStart)
    case StatusTextStart => if IsChar(c) then Goto(p.(resp := r.(status := r.status + [c])), StatusText) else Fail(p)
    case StatusText =>
      if c == '\r' then Goto(p, NewLine)
      else if IsChar(c) then Goto(p.(resp := r.(status := r.status + [c])), StatusText)
      else Fail(p)
    case _ => GotoIf(p, c == '\n', HeaderLineStart)
  }

  function HeaderStep(p: Parser, c: char): (Result, Parser) {
    match p.state
    case HeaderLineStart =>
      if c == '\r' then Goto(p, ExpectingNewline3)
      else if p.resp.headers != [] && (c == ' ' || c == '\t') then Goto(p, HeaderLws)
      else if !NameChar(c) then Fail(p)
      else Goto(p.(resp := p.resp.(headers := p.resp.headers + [Header([c], "")])), HeaderName)
    case HeaderLws =>
      if c == '\r' then Goto(p, ExpectingNewline2)
      else if c == ' ' || c == '\t' then Goto(p, HeaderLws)
      else if IsControl(c) then Fail(p)
      else Goto(p.(resp := ValuePlus(p.resp, c)), HeaderValue)
    case HeaderName =>
      if c == ':' then Goto(p, SpaceBeforeHeaderValue)
      else if !NameChar(c) then Fail(p)
      else Goto(p.(resp := NamePlus(p.resp, c)), HeaderName)
    case SpaceBeforeHeaderValue => GotoIf(p, c == ' ', HeaderValue)
    case HeaderValue =>
      if c == '\r' then Goto(NoteHeader(p), ExpectingNewline2)
      else if IsControl(c) then Fail(p)
      else Goto(p.(resp := ValuePlus(p.resp, c)), HeaderValue)
    case ExpectingNewline2 => GotoIf(p, c == '\n', HeaderLineStart)
    case _ =>
      var q := p.(resp := NoteKeepAlive(p.resp));
      if p.chunked then Goto(q, ChunkSize)
      else if p.contentSize == 0 then (if c == '\n' then Completed else Error, q)
      else Goto(q, Post)
  }

  function BodyStep(p: Parser, c: char): (Result, Parser) {
    match p.state
    case Post =>
      var left := (p.contentSize - 1) % SIZE_RANGE;
      (if left == 0 then Completed else Incompleted,
        p.(contentSize := left, resp := p.resp.(content := p.resp.content + [c])))
    case ChunkSize =>
      if IsAlnum(c) then Goto(p.(chunkSizeStr := p.chunkSizeStr + [c]), ChunkSize)
      else if c == ';' then Goto(p, ChunkExtensionName)
      else GotoIf(p, c == '\r', ChunkSizeNewLine)
    case ChunkExtensionName =>
      if IsAlnum(c) || c == ' ' then Goto(p, ChunkExtensionName)
      else if c == '=' then Goto(p, ChunkExtensionValue)
      else GotoIf(p, c == '\r', ChunkSizeNewLine)
    case ChunkExtensionValue =>
      if IsAlnum(c) || c == ' ' then Goto(p, ChunkExtensionValue) else GotoIf(p, c == '\r', ChunkSizeNewLine)
    case ChunkSizeNewLine =>
      if c != '\n' then Fail(p) else
      var size := StrtolHex(p.chunkSizeStr);
      Goto(p.(chunkSize := size, chunkSizeStr := ""), if size == 0 then ChunkSizeNewLine2 else ChunkData)
    case ChunkSizeNewLine2 => if c == '\r' then Goto(p, ChunkSizeNewLine3) else GotoIf(p, IsAlpha(c), ChunkTrailerName)
    case ChunkSizeNewLine3 => (if c == '\n' then Completed else Error, p)
    case ChunkTrailerName => if IsAlnum(c) then Goto(p, ChunkTrailerName) else GotoIf(p, c == ':', ChunkTrailerValue)
    case ChunkTrailerValue =>
      if IsAlnum(c) || c == ' ' then Goto(p, ChunkTrailerValue) else GotoIf(p, c == '\r', ChunkSizeNewLine)
    case ChunkData =>
      var left := (p.chunkSize - 1) % SIZE_RANGE;
      Goto(p.(chunkSize := left, resp := p.resp.(content := p.resp.content + [c])), if left == 0 then ChunkDataNewLine1
        else ChunkData)
    case ChunkDataNewLine1 => GotoIf(p, c == '\r', ChunkDataNewLine2)
    case _ => GotoIf(p, c == '\n', ChunkSize)
  }

  predicate InStatusLine(s: State) {
    s.StatusStart? || s.Ht? || s.Htt? || s.Http? || s.Slash? || s.MajorStart? || s.Major? || s.MinorStart? || s.Minor?
    || s.StatusCodeStart? || s.StatusCode? || s.StatusTextStart? || s.StatusText? || s.NewLine?
  }

  predicate InHeaders(s: State) {
    s.HeaderLineStart? || s.HeaderLws? || s.HeaderName? || s.SpaceBeforeHeaderValue? || s.HeaderValue?
      || s.ExpectingNewline2?
    || s.ExpectingNewline3?
  }

  function Step(p: Parser, c: char): (Result, Parser) {
    if InStatusLine(p.state) then StatusLineStep(p, c)
    else if InHeaders(p.state) then HeaderStep(p, c)
    else BodyStep(p, c)
  }

  // ---------------------------------------------------------------- runs

  /** Characters are consumed up to the first that completes the response or is an error. */
  function Run(p: Parser, input: string): (Result, Parser)
    decreases |input|
  {
    if input == "" then (Incompleted, p)
    else
      var (r, q) := Step(p, input[0]);
      if r == Incompleted then Run(q, input[1..]) else (r, q)
  }

  /** The pieces one after the other, as long as the parser asks for more. */
  function Feed(p: Parser, pieces: seq<string>): (Result, Parser)
    decreases |pieces|
  {
    if pieces == [] then (Incompleted, p)
    else
      var (r, q) := Run(p, pieces[0]);
      if r == Incompleted then Feed(q, pieces[1..]) else (r, q)
  }

  lemma {:induction false} RunConcat(p: Parser, a: string, b: string)
    ensures var (r, q) := Run(p, a); Run(p, a + b) == if r == Incompleted then Run(q, b) else (r, q)
    decreases |a|
  {
    hide Step;
    if a == "" {
      assert a + b == b;
    } else {
      assert (a + b)[0] == a[0] && (a + b)[1..] == a[1..] + b;
      RunConcat(Step(p, a[0]).1, a[1..], b);
    }
  }

  lemma RunNothing(p: Parser)
    ensures Run(p, "") == (Incompleted, p)
  {
  }

  /** However the input is cut into pieces, the outcome is that of the whole. */
  lemma {:induction false} PiecesAreTheWhole(p: Parser, pieces: seq<string>)
    ensures Feed(p, pieces) == Run(p, Concat(pieces))
    decreases |pieces|
  {
    hide Run;
    if pieces == [] {
      assert Run(p, "") == (Incompleted, p) by { RunNothing(p); }
    } else {
      RunConcat(p, pieces[0], Concat(pieces[1..]));
      PiecesAreTheWhole(Run(p, pieces[0]).1, pieces[1..]);
    }
  }

  /** The parser object; the response it fills is passed in and handed back. */
  class HttpResponseParser {
    var state: State
    var contentSize: nat
    var chunkSizeStr: string
    var chunkSize: nat
    var chunked: bool

    constructor ()
      ensures As(EMPTY_RESPONSE) == NEW_PARSER
    {
      state, contentSize, chunkSizeStr, chunkSize, chunked := StatusStart, 0, "", 0, false;
    }

    function As(resp: Response): Parser
      reads this
    {
      Parser(state, contentSize, chunkSizeStr, chunkSize, chunked, resp)
    }

    method Parse(resp: Response, input: string) returns (result: Result, resp': Response)
      modifies this
      ensures (result, As(resp')) == Run(old(As(resp)), input)
    {
      hide Step;
      resp' := resp;
      var i := 0;
      assert input[0..] == input;
      while i < |input|
        invariant 0 <= i <= |input|
        invariant Run(As(resp'), input[i..]) == Run(old(As(resp)), input)
      {
        assert input[i..][0] == input[i] && input[i..][1..] == input[i + 1..];
        var (r, p) := Step(As(resp'), input[i]);
        state, contentSize, chunkSizeStr, chunkSize, chunked := p.state, p.contentSize, p.chunkSizeStr, p.chunkSize,
          p.chunked;
        resp' := p.resp;
        if r != Incompleted {
          return r, resp';
        }
        i := i + 1;
      }
      result := Incompleted;
    }
  }

  // ---------------------------------------------------------------- chunked bodies

  datatype Extension = NoExtension | Named(name: string) | Valued(name: string, value: string)

  /** A chunk as sent: its size in hexadecimal digits, an optional extension, and its data. */
  datatype Chunk = Chunk(size: string, extension: Extension, data: string)

  datatype Trailer = Trailer(name: string, value: string)

  predicate Plain(s: string) {
    forall i :: 0 <= i < |s| ==> IsAlnum(s[i]) || s[i] == ' '
  }

  predicate ExtensionOk(x: Extension) {
    match x
    case NoExtension => true
    case Named(n) => Plain(n)
    case Valued(n, v) => Plain(n) && Plain(v)
  }

  predicate HexDigits(s: string) {
    forall i :: 0 <= i < |s| ==> IsHexDigit(s[i])
  }

  predicate SizeOk(size: string, n: nat) {
    size != "" && HexDigits(size) && HexValue(size) == n <= LONG_MAX
  }

  predicate AllAlnum(s: string) {
    forall i :: 0 <= i < |s| ==> IsAlnum(s[i])
  }

  /** Any letters and digits that are read as n. */
  predicate SizeFits(size: string, n: nat) {
    AllAlnum(size) && StrtolHex(size) == n
  }

  predicate ChunkFits(c: Chunk) {
    c.data != "" && SizeFits(c.size, |c.data|) && ExtensionOk(c.extension)
  }

  predicate TrailerOk(t: Trailer) {
    t.name != "" && IsAlpha(t.name[0]) && (forall i :: 0 <= i < |t.name| ==> IsAlnum(t.name[i])) && Plain(t.value)
  }

  function ExtensionText(x: Extension): string {
    match x
    case NoExtension => ""
    case Named(n) => ";" + n
    case Valued(n, v) => ";" + (n + ("=" + v))
  }

  function ChunkText(c: Chunk): string {
    (c.size + (ExtensionText(c.extension) + "\r\n")) + (c.data + "\r\n")
  }

  function ChunksText(cs: seq<Chunk>): string {
    if cs == [] then "" else ChunkText(cs[0]) + ChunksText(cs[1..])
  }

  function Data(cs: seq<Chunk>): string {
    if cs == [] then "" else cs[0].data + Data(cs[1..])
  }

  function TrailerText(t: Trailer): string {
    t.name + (":" + (t.value + "\r\n"))
  }

  function TrailersText(ts: seq<Trailer>): string {
    if ts == [] then "" else TrailerText(ts[0]) + TrailersText(ts[1..])
  }

  /** The chunks, the last chunk, the trailers and the empty line. */
  function ChunkedText(cs: seq<Chunk>, zero: string, x: Extension, ts: seq<Trailer>): string {
    ChunksText(cs) + ((zero + (ExtensionText(x) + "\r\n")) + (TrailersText(ts) + "\r\n"))
  }

  /** A run on a, whose outcome is q, continued on b. */
  lemma Then(p: Parser, a: string, q: Parser, b: string)
    requires Run(p, a) == (Incompleted, q)
    ensures Run(p, a + b) == Run(q, b)
  {
    hide Run;
    RunConcat(p, a, b);
  }

  lemma One(p: Parser, c: char)
    ensures Run(p, [c]) == Step(p, c)
  {
    hide Step;
    var (r, q) := Step(p, c);
    assert [c][1..] == "";
  }

  lemma Two(p: Parser, c: char, d: char)
    requires Step(p, c).0 == Incompleted
    ensures Run(p, [c, d]) == Step(Step(p, c).1, d)
  {
    hide Step, Run;
    One(p, c);
    One(Step(p, c).1, d);
    Then(p, [c], Step(p, c).1, [d]);
    assert [c] + [d] == [c, d];
  }

  /** Characters that change nothing. */
  lemma {:induction false} Skips(p: Parser, s: string)
    requires forall i :: 0 <= i < |s| ==> Step(p, s[i]) == (Incompleted, p)
    ensures Run(p, s) == (Incompleted, p)
    decreases |s|
  {
    hide Step;
    if s != "" {
      Skips(p, s[1..]);
    }
  }

  lemma {:induction false} SizeIsCollected(p: Parser, s: string)
    requires p.state == ChunkSize && forall i :: 0 <= i < |s| ==> IsAlnum(s[i])
    ensures Run(p, s) == (Incompleted, p.(chunkSizeStr := p.chunkSizeStr + s))
    decreases |s|
  {
    hide IsAlnum;
    if s == "" {
      assert p.chunkSizeStr + s == p.chunkSizeStr;
    } else {
      var q := p.(chunkSizeStr := p.chunkSizeStr + [s[0]]);
      SizeIsCollected(q, s[1..]);
      assert p.chunkSizeStr + [s[0]] + s[1..] == p.chunkSizeStr + s;
    }
  }

  /** An extension and the return after it, wherever in the header of a chunk. */
  lemma ExtensionIsSkipped(p: Parser, x: Extension)
    requires p.state == ChunkSize && ExtensionOk(x)
    ensures Run(p, ExtensionText(x) + "\r") == (Incompleted, p.(state := ChunkSizeNewLine))
  {
    hide Run;
    match x
    case NoExtension =>
      assert "" + "\r" == "\r";
      One(p, '\r');
    case Named(n) =>
      var q := p.(state := ChunkExtensionName);
      One(p, ';');
      Skips(q, n);
      One(q, '\r');
      Then(q, n, q, "\r");
      Then(p, ";", q, n + "\r");
      assert (";" + n) + "\r" == ";" + (n + "\r");
    case Valued(n, v) =>
      var q, r := p.(state := ChunkExtensionName), p.(state := ChunkExtensionValue);
      One(p, ';');
      Skips(q, n);
      One(q, '=');
      Skips(r, v);
      One(r, '\r');
      Then(r, v, r, "\r");
      Then(q, "=", r, v + "\r");
      Then(q, n, q, "=" + (v + "\r"));
      Then(p, ";", q, n + ("=" + (v + "\r")));
      assert (";" + (n + ("=" + v))) + "\r" == ";" + (n + ("=" + (v + "\r")));
  }

  lemma {:induction false} HexPrefixOfDigits(s: string)
    requires HexDigits(s)
    ensures HexPrefix(s) == s
  {
    if s != "" {
      HexPrefixOfDigits(s[1..]);
    }
  }

  /** Sizes in hexadecimal digits of either case, with any number of leading zeros. */
  lemma SizeReadsBack(size: string, n: nat)
    requires SizeOk(size, n)
    ensures SizeFits(size, n)
  {
    HexPrefixOfDigits(size);
  }

  /** The size line of a chunk. */
  lemma SizeLine(p: Parser, size: string, x: Extension, n: nat)
    requires p.state == ChunkSize && p.chunkSizeStr == "" && SizeFits(size, n) && ExtensionOk(x)
    ensures Run(p, size + (ExtensionText(x) + "\r\n"))
      == (Incompleted, p.(chunkSize := n, state := if n == 0 then ChunkSizeNewLine2 else ChunkData))
  {
    hide Run, ExtensionText, HexValue, StrtolHex;
    var q := p.(chunkSizeStr := size);
    SizeIsCollected(p, size);
    assert "" + size == size;
    ExtensionIsSkipped(q, x);
    One(q.(state := ChunkSizeNewLine), '\n');
    Then(q, ExtensionText(x) + "\r", q.(state := ChunkSizeNewLine), "\n");
    assert ExtensionText(x) + "\r" + "\n" == ExtensionText(x) + "\r\n";
    Then(p, size, q, ExtensionText(x) + "\r\n");
  }

  lemma {:induction false} DataIsCollected(p: Parser, d: string)
    requires p.state == ChunkData && 0 < |d| == p.chunkSize <= LONG_MAX
    ensures Run(p, d)
      == (Incompleted, p.(state := ChunkDataNewLine1, chunkSize := 0, resp := p.resp.(content := p.resp.content + d)))
    decreases |d|
  {
    var q := Step(p, d[0]).1;
    if |d| == 1 {
      assert d == [d[0]];
      One(p, d[0]);
    } else {
      DataIsCollected(q, d[1..]);
      assert p.resp.content + [d[0]] + d[1..] == p.resp.content + d;
    }
  }

  lemma SizeBound(size: string)
    ensures StrtolHex(size) <= LONG_MAX
  {
  }

  lemma ChunkIsDecoded(p: Parser, c: Chunk)
    requires p.state == ChunkSize && p.chunkSizeStr == "" && ChunkFits(c)
    ensures Run(p, ChunkText(c)) == (Incompleted,
      p.(chunkSize := 0, resp := p.resp.(content := p.resp.content + c.data)))
  {
    hide Run, ExtensionText, StrtolHex, AllAlnum, ExtensionOk;
    var q := p.(chunkSize := |c.data|, state := ChunkData);
    var r := q.(state := ChunkDataNewLine1, chunkSize := 0, resp := p.resp.(content := p.resp.content + c.data));
    SizeBound(c.size);
    SizeLine(p, c.size, c.extension, |c.data|);
    DataIsCollected(q, c.data);
    Two(r, '\r', '\n');
    Then(q, c.data, r, "\r\n");
    Then(p, c.size + (ExtensionText(c.extension) + "\r\n"), q, c.data + "\r\n");
  }

  lemma {:induction false} ChunksAreDecoded(p: Parser, cs: seq<Chunk>)
    requires p.state == ChunkSize && p.chunkSizeStr == "" && forall i :: 0 <= i < |cs| ==> ChunkFits(cs[i])
    ensures Run(p, ChunksText(cs)).0 == Incompleted
    ensures var q := Run(p, ChunksText(cs)).1;
      q == p.(chunkSize := q.chunkSize, resp := p.resp.(content := p.resp.content + Data(cs)))
    decreases |cs|
  {
    hide Run, ChunkText, ChunkFits;
    if cs == [] {
      RunNothing(p);
      assert p.resp.content + "" == p.resp.content;
    } else {
      var q := p.(chunkSize := 0, resp := p.resp.(content := p.resp.content + cs[0].data));
      ChunkIsDecoded(p, cs[0]);
      ChunksAreDecoded(q, cs[1..]);
      Then(p, ChunkText(cs[0]), q, ChunksText(cs[1..]));
      assert p.resp.content + cs[0].data + Data(cs[1..]) == p.resp.content + Data(cs);
    }
  }

  lemma TrailerIsSkipped(p: Parser, t: Trailer)
    requires p.state == ChunkSizeNewLine2 && p.chunkSizeStr == "" && p.chunkSize == 0 && TrailerOk(t)
    ensures Run(p, TrailerText(t)) == (Incompleted, p)
  {
    hide Run;
    var q, r, n := p.(state := ChunkTrailerName), p.(state := ChunkTrailerValue), p.(state := ChunkSizeNewLine);
    One(p, t.name[0]);
    Skips(q, t.name[1..]);
    Then(p, [t.name[0]], q, t.name[1..]);
    assert [t.name[0]] + t.name[1..] == t.name;
    One(q, ':');
    Skips(r, t.value);
    Two(r, '\r', '\n');
    Then(r, t.value, r, "\r\n");
    Then(q, ":", r, t.value + "\r\n");
    Then(p, t.name, q, ":" + (t.value + "\r\n"));
  }

  lemma {:induction false} TrailersAreSkipped(p: Parser, ts: seq<Trailer>)
    requires p.state == ChunkSizeNewLine2 && p.chunkSizeStr == "" && p.chunkSize == 0
    requires forall i :: 0 <= i < |ts| ==> TrailerOk(ts[i])
    ensures Run(p, TrailersText(ts)) == (Incompleted, p)
    decreases |ts|
  {
    hide Run, TrailerText, TrailerOk;
    if ts == [] {
      RunNothing(p);
    } else {
      TrailerIsSkipped(p, ts[0]);
      TrailersAreSkipped(p, ts[1..]);
      Then(p, TrailerText(ts[0]), p, TrailersText(ts[1..]));
    }
  }

  /**
   Any sequence of chunks, with sizes in either case and leading zeros, extensions and trailers, is decoded exactly.
   */
  lemma ChunkedBodyIsDecoded(p: Parser, cs: seq<Chunk>, zero: string, x: Extension, ts: seq<Trailer>)
    requires p.state == ChunkSize && p.chunkSizeStr == ""
    requires (forall i :: 0 <= i < |cs| ==> ChunkFits(cs[i])) && SizeFits(zero, 0) && ExtensionOk(x)
    requires forall i :: 0 <= i < |ts| ==> TrailerOk(ts[i])
    ensures Run(p, ChunkedText(cs, zero, x, ts)).0 == Completed
    ensures Run(p, ChunkedText(cs, zero, x, ts)).1.resp == p.resp.(content := p.resp.content + Data(cs))
  {
    hide Run, ChunkFits, SizeFits, ExtensionOk, TrailerOk, ChunksText, TrailersText, ExtensionText, Data, StrtolHex;
    var q := Run(p, ChunksText(cs)).1;
    var r := q.(chunkSize := 0, state := ChunkSizeNewLine2);
    ChunksAreDecoded(p, cs);
    SizeLine(q, zero, x, 0);
    TrailersAreSkipped(r, ts);
    Two(r, '\r', '\n');
    Then(r, TrailersText(ts), r, "\r\n");
    Then(q, zero + (ExtensionText(x) + "\r\n"), r, TrailersText(ts) + "\r\n");
    Then(p, ChunksText(cs), q, (zero + (ExtensionText(x) + "\r\n")) + (TrailersText(ts) + "\r\n"));
  }

  /** A body of the announced length. */
  lemma {:induction false} FixedBodyIsDecoded(p: Parser, body: string)
    requires p.state == Post && 0 < |body| == p.contentSize < SIZE_RANGE
    ensures Run(p, body).0 == Completed && Run(p, body).1.resp == p.resp.(content := p.resp.content + body)
    decreases |body|
  {
    if |body| == 1 {
      assert body == [body[0]];
      One(p, body[0]);
    } else {
      FixedBodyIsDecoded(Step(p, body[0]).1, body[1..]);
      assert p.resp.content + [body[0]] + body[1..] == p.resp.content + body;
    }
  }

  /** Lower-case hexadecimal digits without leading zeros. */
  function HexText(n: nat): (r: string)
    ensures r != "" && HexDigits(r)
  {
    var low := n % 16;
    var digit := if low < 10 then ('0' as int + low) as char else ('a' as int + low - 10) as char;
    if n < 16 then [digit] else HexText(n / 16) + [digit]
  }

  /** So every list of non-empty blocks has an encoding. */
  lemma {:induction false} HexTextIsSize(n: nat)
    requires n <= LONG_MAX
    ensures SizeOk(HexText(n), n) && SizeFits(HexText(n), n)
  {
    var r := HexText(n);
    if n >= 16 {
      HexTextIsSize(n / 16);
      assert r[..|r| - 1] == HexText(n / 16);
    } else {
      assert r[..0] == "";
    }
    SizeReadsBack(r, n);
  }

  // ---------------------------------------------------------------- whole messages

  predicate HeaderOk(h: Header) {
    && h.name != "" && (forall i :: 0 <= i < |h.name| ==> NameChar(h.name[i]))
    && forall i :: 0 <= i < |h.value| ==> !IsControl(h.value[i])
  }

  function HeaderText(h: Header): string {
    h.name + (": " + (h.value + "\r\n"))
  }

  function HeadersText(hs: seq<Header>): string {
    if hs == [] then "" else HeaderText(hs[0]) + HeadersText(hs[1..])
  }

  predicate Digits(s: string) {
    s != "" && forall i :: 0 <= i < |s| ==> IsDigit(s[i])
  }

  predicate AllDigits(s: string) {
    forall i :: 0 <= i < |s| ==> IsDigit(s[i])
  }

  /** Any characters but returns behind the first. */
  predicate TextFits(s: string) {
    (forall i :: 0 <= i < |s| ==> IsChar(s[i])) && forall i :: 0 < i < |s| ==> s[i] != '\r'
  }

  function CodeValue(code: string): nat
    requires AllDigits(code)
  {
    DecimalValue(code) % 0x1_0000_0000
  }

  predicate StatusOk(major: string, minor: string, code: string, text: string) {
    && Digits(major) && Digits(minor) && Digits(code) && 100 <= CodeValue(code) <= 999
    && text != "" && TextFits(text)
  }

  function StatusLineText(major: string, minor: string, code: string, text: string): string {
    "HTTP/" + (major + ("." + (minor + (" " + (code + (" " + (text + "\r\n")))))))
  }

  lemma ColonIsNoName()
    ensures !NameChar(':') && !NameChar('\r') && !NameChar(' ') && !NameChar('\t')
  {
  }

  lemma {:induction false} NameIsCollected(p: Parser, hs: seq<Header>, h: Header, n: string)
    requires p.state == HeaderName && p.resp.headers == hs + [h] && forall i :: 0 <= i < |n| ==> NameChar(n[i])
    ensures Run(p, n) == (Incompleted, p.(resp := p.resp.(headers := hs + [Header(h.name + n, h.value)])))
    decreases |n|
  {
    hide NameChar;
    if n == "" {
      assert h.name + n == h.name;
    } else {
      assert NameChar(n[0]) && !NameChar(':') by { ColonIsNoName(); }
      var h' := Header(h.name + [n[0]], h.value);
      assert NamePlus(p.resp, n[0]).headers == hs + [h'];
      NameIsCollected(p.(resp := NamePlus(p.resp, n[0])), hs, h', n[1..]);
      assert h.name + [n[0]] + n[1..] == h.name + n;
    }
  }

  lemma {:induction false} ValueIsCollected(p: Parser, hs: seq<Header>, h: Header, v: string)
    requires p.state == HeaderValue && p.resp.headers == hs + [h] && forall i :: 0 <= i < |v| ==> !IsControl(v[i])
    ensures Run(p, v) == (Incompleted, p.(resp := p.resp.(headers := hs + [Header(h.name, h.value + v)])))
    decreases |v|
  {
    if v == "" {
      assert h.value + v == h.value;
    } else {
      var h' := Header(h.name, h.value + [v[0]]);
      assert ValuePlus(p.resp, v[0]).headers == hs + [h'];
      ValueIsCollected(p.(resp := ValuePlus(p.resp, v[0])), hs, h', v[1..]);
      assert h.value + [v[0]] + v[1..] == h.value + v;
    }
  }

  function WithHeader(p: Parser, h: Header): Parser {
    NoteHeader(p.(resp := p.resp.(headers := p.resp.headers + [h])))
  }

  lemma NameBegins(p: Parser, c: char)
    requires p.state == HeaderLineStart && NameChar(c)
    ensures Run(p, [c]) == (Incompleted,
      p.(state := HeaderName, resp := p.resp.(headers := p.resp.headers + [Header([c], "")])))
  {
    hide NameChar, Run;
    ColonIsNoName();
    One(p, c);
  }

  lemma NameEnds(p: Parser)
    requires p.state == HeaderName
    ensures Run(p, ": ") == (Incompleted, p.(state := HeaderValue))
  {
    hide Run;
    Two(p, ':', ' ');
  }

  lemma HeaderEnds(p: Parser, d: Parser, h: Header)
    requires p.state == HeaderLineStart
    requires d == p.(state := HeaderValue, resp := p.resp.(headers := p.resp.headers + [h]))
    ensures Run(d, "\r\n") == (Incompleted, WithHeader(p, h))
  {
    hide Run;
    Two(d, '\r', '\n');
  }

  lemma HeaderIsRead(p: Parser, h: Header)
    requires p.state == HeaderLineStart && HeaderOk(h)
    ensures Run(p, HeaderText(h)) == (Incompleted, WithHeader(p, h))
  {
    hide Run, NameChar, NoteHeader, Step;
    var hs, n := p.resp.headers, h.name[1..];
    var a := p.(state := HeaderName, resp := p.resp.(headers := hs + [Header([h.name[0]], "")]));
    var b := a.(resp := p.resp.(headers := hs + [Header(h.name, "")]));
    var c := b.(state := HeaderValue);
    var d := c.(resp := p.resp.(headers := hs + [h]));
    NameBegins(p, h.name[0]);
    NameIsCollected(a, hs, Header([h.name[0]], ""), n);
    assert [h.name[0]] + n == h.name;
    Then(p, [h.name[0]], a, n);
    NameEnds(b);
    ValueIsCollected(c, hs, Header(h.name, ""), h.value);
    assert "" + h.value == h.value;
    HeaderEnds(p, d, h);
    Then(c, h.value, d, "\r\n");
    Then(b, ": ", c, h.value + "\r\n");
    Then(p, h.name, b, ": " + (h.value + "\r\n"));
  }

  function WithHeaders(p: Parser, hs: seq<Header>): Parser
    decreases |hs|
  {
    if hs == [] then p else WithHeaders(WithHeader(p, hs[0]), hs[1..])
  }

  lemma {:induction false} HeadersAreRead(p: Parser, hs: seq<Header>)
    requires p.state == HeaderLineStart && forall i :: 0 <= i < |hs| ==> HeaderOk(hs[i])
    ensures Run(p, HeadersText(hs)) == (Incompleted, WithHeaders(p, hs))
    decreases |hs|
  {
    hide Run, HeaderText, HeaderOk, SameIgnoringCase, ContentSize;
    if hs == [] {
      RunNothing(p);
    } else {
      HeaderIsRead(p, hs[0]);
      HeadersAreRead(WithHeader(p, hs[0]), hs[1..]);
      Then(p, HeaderText(hs[0]), WithHeader(p, hs[0]), HeadersText(hs[1..]));
    }
  }

  predicate SaysChunked(h: Header) {
    SameIgnoringCase(h.name, "Transfer-Encoding") && SameIgnoringCase(h.value, "chunked")
  }

  /** The body length by the last Content-Length header. */
  function Length(hs: seq<Header>): nat {
    if hs == [] then 0
    else
      var h := hs[|hs| - 1];
      if SameIgnoringCase(h.name, "Content-Length") then ContentSize(h.value) else Length(hs[..|hs| - 1])
  }

  predicate IsBlank(c: char) {
    c == ' ' || 9 <= c as int <= 13
  }

  function DecimalText(n: nat): (r: string)
    ensures r != "" && forall i :: 0 <= i < |r| ==> IsDigit(r[i])
  {
    if n < 10 then ["0123456789"[n]] else DecimalText(n / 10) + ["0123456789"[n % 10]]
  }

  lemma {:induction false} DecimalTextIsValue(n: nat)
    ensures DecimalValue(DecimalText(n)) == n
  {
    var r := DecimalText(n);
    if n < 10 {
      assert r[..0] == "";
    } else {
      DecimalTextIsValue(n / 10);
      assert r[..|r| - 1] == DecimalText(n / 10);
    }
  }

  lemma {:induction false} DigitsAreThePrefix(digits: string, rest: string)
    requires (forall i :: 0 <= i < |digits| ==> IsDigit(digits[i])) && (rest != "" ==> !IsDigit(rest[0]))
    ensures DecimalPrefix(digits + rest) == digits
  {
    if digits == "" {
      assert digits + rest == rest;
    } else {
      DigitsAreThePrefix(digits[1..], rest);
      assert (digits + rest)[1..] == digits[1..] + rest;
    }
  }

  lemma {:induction false} BlanksAreTrimmed(blanks: string, rest: string)
    requires (forall i :: 0 <= i < |blanks| ==> IsBlank(blanks[i])) && (rest != "" ==> !IsBlank(rest[0]))
    ensures TrimLeft(blanks + rest) == rest
  {
    if blanks == "" {
      assert blanks + rest == rest;
    } else {
      BlanksAreTrimmed(blanks[1..], rest);
      assert (blanks + rest)[1..] == blanks[1..] + rest;
    }
  }

  /** A number as strtol leaves it in a long. */
  function InLong(n: nat, negative: bool): int {
    if negative then -(if n > LONG_MAX + 1 then LONG_MAX + 1 else n) else if n > LONG_MAX then LONG_MAX else n
  }

  lemma AsSizeIsValue(v: int)
    ensures AsSize(v) < 0x8000_0000 || SIZE_RANGE - 0x8000_0000 <= AsSize(v) < SIZE_RANGE
    ensures (AsSize(v) - v) % 0x1_0000_0000 == 0 && (0 <= v < 0x8000_0000 ==> AsSize(v) == v)
  {
  }

  lemma SignIsSplit(sign: string, u: string)
    requires |sign| <= 1 && u != ""
    ensures (sign + u)[0] == (if sign == "" then u else sign)[0]
    ensures (if sign == "" then sign + u else (sign + u)[1..]) == u
  {
  }

  lemma SignAndDigits(sign: string, n: nat, rest: string)
    requires (sign == "" || sign == "+" || sign == "-") && (rest != "" ==> !IsDigit(rest[0]))
    ensures var t := sign + (DecimalText(n) + rest);
      && t != "" && !IsBlank(t[0]) && (t[0] == '-' <==> sign == "-") && (t[0] == '+' <==> sign == "+")
      && DecimalValue(DecimalPrefix(if sign == "" then t else t[1..])) == n
  {
    hide DecimalText, DecimalValue, DecimalPrefix;
    var digits := DecimalText(n);
    DecimalTextIsValue(n);
    DigitsAreThePrefix(digits, rest);
    assert (digits + rest)[0] == digits[0];
    SignIsSplit(sign, digits + rest);
  }

  lemma SizeOfText(blanks: string, sign: string, n: nat, rest: string)
    requires (forall i :: 0 <= i < |blanks| ==> IsBlank(blanks[i])) && (rest != "" ==> !IsDigit(rest[0]))
    requires sign == "" || sign == "+" || sign == "-"
    ensures ContentSize(blanks + (sign + (DecimalText(n) + rest))) == AsSize(InLong(n, sign == "-"))
  {
    SignAndDigits(sign, n, rest);
    BlanksAreTrimmed(blanks, sign + (DecimalText(n) + rest));
    hide DecimalText, DecimalValue, DecimalPrefix, TrimLeft, AsSize, IsBlank;
  }

  /**
   A length behind blanks, with or without a sign, whatever follows: the size is the number itself below 2^31, and in
   any case the one that agrees with it modulo 2^32 among the 32-bit numbers extended by their sign.
   */
  lemma ContentSizeIsNumber(blanks: string, sign: string, n: nat, rest: string)
    requires (forall i :: 0 <= i < |blanks| ==> IsBlank(blanks[i])) && (rest != "" ==> !IsDigit(rest[0]))
    requires sign == "" || sign == "+" || sign == "-"
    ensures var size := ContentSize(blanks + (sign + (DecimalText(n) + rest)));
      && (size < 0x8000_0000 || SIZE_RANGE - 0x8000_0000 <= size < SIZE_RANGE)
      && (size - InLong(n, sign == "-")) % 0x1_0000_0000 == 0
      && (sign != "-" && n < 0x8000_0000 ==> size == n)
  {
    assert sign != "-" && n < 0x8000_0000 ==> InLong(n, sign == "-") == n;
    hide *;
    SizeOfText(blanks, sign, n, rest);
    AsSizeIsValue(InLong(n, sign == "-"));
  }

  lemma OneKindOnly(h: Header)
    ensures !(SameIgnoringCase(h.name, "Content-Length") && SameIgnoringCase(h.name, "Transfer-Encoding"))
  {
  }

  lemma ChunkedByOneMore(seen: seq<Header>, h: Header)
    ensures (exists x :: x in seen + [h] && SaysChunked(x))
      <==> (exists x :: x in seen && SaysChunked(x)) || SaysChunked(h)
  {
    hide SaysChunked;
    if SaysChunked(h) {
      assert h in seen + [h];
    }
    if x :| x in seen && SaysChunked(x) {
      assert x in seen + [h];
    }
  }

  lemma HeaderIsNoted(p: Parser, h: Header, seen: seq<Header>)
    requires p.resp.headers == seen && p.contentSize == Length(seen)
    requires p.chunked <==> exists x :: x in seen && SaysChunked(x)
    ensures WithHeader(p, h) == p.(resp := p.resp.(headers := seen + [h]), contentSize := Length(seen + [h]),
                                   chunked := exists x :: x in seen + [h] && SaysChunked(x))
  {
    hide SameIgnoringCase, ContentSize;
    assert (seen + [h])[..|seen + [h]| - 1] == seen;
    OneKindOnly(h);
    ChunkedByOneMore(seen, h);
  }

  lemma {:induction false} HeadersAreNoted(p: Parser, hs: seq<Header>, seen: seq<Header>)
    requires p.state == HeaderLineStart && p.resp.headers == seen && p.contentSize == Length(seen)
    requires p.chunked <==> exists h :: h in seen && SaysChunked(h)
    ensures var q := WithHeaders(p, hs);
      q == p.(resp := p.resp.(headers := seen + hs), contentSize := Length(seen + hs),
              chunked := exists h :: h in seen + hs && SaysChunked(h))
    decreases |hs|
  {
    hide SaysChunked, Length, WithHeader;
    if hs == [] {
      assert seen + hs == seen;
    } else {
      var next := seen + [hs[0]];
      assert next[..|next| - 1] == seen;
      HeaderIsNoted(p, hs[0], seen);
      HeadersAreNoted(WithHeader(p, hs[0]), hs[1..], next);
      assert next + hs[1..] == seen + hs;
    }
  }

  // the status line

  lemma {:induction false} DecimalGrows(s: string, d: char)
    requires (forall i :: 0 <= i < |s| ==> IsDigit(s[i])) && IsDigit(d)
    ensures DecimalValue(s + [d]) == 10 * DecimalValue(s) + DigitValue(d)
  {
    assert (s + [d])[..|s + [d]| - 1] == s;
  }

  /** The digits of a version number or status code, after the first `seen` ones. */
  lemma {:induction false} NumberIsCollected(p: Parser, seen: string, s: string)
    requires p.state == Major || p.state == Minor
    requires (forall i :: 0 <= i < |seen| ==> IsDigit(seen[i])) && forall i :: 0 <= i < |s| ==> IsDigit(s[i])
    requires DecimalValue(seen) == if p.state == Major then p.resp.versionMajor else p.resp.versionMinor
    ensures Run(p, s) == (Incompleted, if p.state == Major
      then p.(resp := p.resp.(versionMajor := DecimalValue(seen + s)))
                                       else p.(resp := p.resp.(versionMinor := DecimalValue(seen + s))))
    decreases |s|
  {
    hide DecimalValue;
    if s == "" {
      assert seen + s == seen;
    } else {
      DecimalGrows(seen, s[0]);
      NumberIsCollected(Step(p, s[0]).1, seen + [s[0]], s[1..]);
      assert seen + [s[0]] + s[1..] == seen + s;
    }
  }

  lemma VersionIsRead(p: Parser, s: string)
    requires (p.state == MajorStart || p.state == MinorStart) && Digits(s)
    ensures Run(p, s) == (Incompleted,
      if p.state == MajorStart then p.(state := Major, resp := p.resp.(versionMajor := DecimalValue(s)))
      else p.(state := Minor, resp := p.resp.(versionMinor := DecimalValue(s))))
  {
    hide Run;
    var q := Step(p, s[0]).1;
    One(p, s[0]);
    assert [s[0]][..0] == "" && DecimalValue([s[0]]) == DigitValue(s[0]);
    NumberIsCollected(q, [s[0]], s[1..]);
    Then(p, [s[0]], q, s[1..]);
    assert [s[0]] + s[1..] == s;
  }

  lemma NoDigits()
    ensures DecimalValue("") == 0
  {
  }

  lemma RemainderGrows(v: nat, d: nat)
    ensures (10 * v + d) % 0x1_0000_0000 == (10 * (v % 0x1_0000_0000) + d) % 0x1_0000_0000
  {
    var q, r := v / 0x1_0000_0000, v % 0x1_0000_0000;
    var k, t := (10 * r + d) / 0x1_0000_0000, (10 * r + d) % 0x1_0000_0000;
    assert v == q * 0x1_0000_0000 + r && 10 * r + d == k * 0x1_0000_0000 + t;
    CircularIndex.ModuloUnique(10 * v + d, 0x1_0000_0000, 10 * q + k, t);
  }

  lemma NumberGrows(s: string, c: char)
    requires AllDigits(s) && IsDigit(c)
    ensures AllDigits(s + [c]) && DecimalValue(s + [c]) == 10 * DecimalValue(s) + DigitValue(c)
    ensures CodeValue(s + [c]) == (10 * CodeValue(s) + DigitValue(c)) % 0x1_0000_0000
  {
    DecimalGrows(s, c);
    hide DecimalValue;
    RemainderGrows(DecimalValue(s), DigitValue(c));
  }

  /** The digits of a status code, after the first `seen` ones. */
  lemma {:induction false} CodeIsCollected(p: Parser, seen: string, s: string)
    requires p.state == StatusCode && AllDigits(seen) && AllDigits(s) && p.resp.statusCode == CodeValue(seen)
    ensures AllDigits(seen + s)
    ensures Run(p, s) == (Incompleted, p.(resp := p.resp.(statusCode := CodeValue(seen + s))))
    decreases |s|
  {
    if s == "" {
      assert seen + s == seen;
    } else {
      NumberGrows(seen, s[0]);
      hide CodeValue;
      CodeIsCollected(Step(p, s[0]).1, seen + [s[0]], s[1..]);
      assert seen + [s[0]] + s[1..] == seen + s;
    }
  }

  lemma CodeIsRead(p: Parser, s: string)
    requires p.state == StatusCodeStart && Digits(s)
    ensures Run(p, s) == (Incompleted, p.(state := StatusCode, resp := p.resp.(statusCode := CodeValue(s))))
  {
    hide Run, DecimalValue;
    var q := Step(p, s[0]).1;
    One(p, s[0]);
    NoDigits();
    NumberGrows("", s[0]);
    assert "" + [s[0]] == [s[0]];
    hide CodeValue;
    CodeIsCollected(q, [s[0]], s[1..]);
    Then(p, [s[0]], q, s[1..]);
    assert [s[0]] + s[1..] == s;
  }

  lemma {:induction false} TextIsCollected(p: Parser, t: string)
    requires p.state == StatusText && forall i :: 0 <= i < |t| ==> IsChar(t[i]) && t[i] != '\r'
    ensures Run(p, t) == (Incompleted, p.(resp := p.resp.(status := p.resp.status + t)))
    decreases |t|
  {
    if t == "" {
      assert p.resp.status + t == p.resp.status;
    } else {
      TextIsCollected(Step(p, t[0]).1, t[1..]);
      assert p.resp.status + [t[0]] + t[1..] == p.resp.status + t;
    }
  }

  lemma TextBegins(p: Parser, c: char)
    requires p.state == StatusTextStart && IsChar(c)
    ensures Run(p, [c]) == (Incompleted, p.(state := State.StatusText, resp := p.resp.(status := p.resp.status + [c])))
  {
    hide Run;
    One(p, c);
  }

  lemma TextEnds(p: Parser)
    requires p.state == State.StatusText
    ensures Run(p, "\r\n") == (Incompleted, p.(state := HeaderLineStart))
  {
    hide Run;
    Two(p, '\r', '\n');
  }

  lemma TextIsRead(p: Parser, t: string)
    requires p.state == StatusTextStart && t != "" && TextFits(t)
    ensures Run(p, t + "\r\n") == (Incompleted,
      p.(state := HeaderLineStart, resp := p.resp.(status := p.resp.status + t)))
  {
    hide Run, IsChar, Step;
    var q := p.(state := State.StatusText, resp := p.resp.(status := p.resp.status + [t[0]]));
    var r := q.(resp := p.resp.(status := p.resp.status + t));
    TextBegins(p, t[0]);
    TextIsCollected(q, t[1..]);
    Then(p, [t[0]], q, t[1..]);
    assert [t[0]] + t[1..] == t && p.resp.status + [t[0]] + t[1..] == p.resp.status + t;
    TextEnds(r);
    Then(p, t, r, "\r\n");
  }

  lemma PrefixIsRead()
    ensures Run(NEW_PARSER, "HTTP/") == (Incompleted, NEW_PARSER.(state := MajorStart))
  {
    hide Run;
    var p := NEW_PARSER;
    Two(p, 'H', 'T');
    Two(p.(state := Htt), 'T', 'P');
    One(p.(state := Slash), '/');
    Then(p.(state := Htt), "TP", p.(state := Slash), "/");
    Then(p, "HT", p.(state := Htt), "TP/");
    assert "TP" + "/" == "TP/" && "HT" + "TP/" == "HTTP/";
  }

  lemma StatusLineIsRead(major: string, minor: string, code: string, text: string)
    requires StatusOk(major, minor, code, text)
    ensures Run(NEW_PARSER, StatusLineText(major, minor, code, text))
      == (Incompleted, NEW_PARSER.(state := HeaderLineStart,
      resp := Response(DecimalValue(major), DecimalValue(minor), [], "", false, CodeValue(code), text)))
  {
    hide Run, DecimalValue, CodeValue;
    PrefixIsRead();
    var p0 := NEW_PARSER.(state := MajorStart);
    var p1 := p0.(state := Major, resp := p0.resp.(versionMajor := DecimalValue(major)));
    var p2 := p1.(state := MinorStart);
    var p3 := p2.(state := Minor, resp := p2.resp.(versionMinor := DecimalValue(minor)));
    var p4 := p3.(state := StatusCodeStart);
    var p5 := p4.(state := StatusCode, resp := p4.resp.(statusCode := CodeValue(code)));
    var p6 := p5.(state := StatusTextStart);
    VersionIsRead(p0, major);
    One(p1, '.');
    VersionIsRead(p2, minor);
    One(p3, ' ');
    CodeIsRead(p4, code);
    One(p5, ' ');
    TextIsRead(p6, text);
    assert "" + text == text;
    Then(p5, " ", p6, text + "\r\n");
    Then(p4, code, p5, " " + (text + "\r\n"));
    Then(p3, " ", p4, code + (" " + (text + "\r\n")));
    Then(p2, minor, p3, " " + (code + (" " + (text + "\r\n"))));
    Then(p1, ".", p2, minor + (" " + (code + (" " + (text + "\r\n")))));
    Then(p0, major, p1, "." + (minor + (" " + (code + (" " + (text + "\r\n"))))));
    Then(NEW_PARSER, "HTTP/", p0, major + ("." + (minor + (" " + (code + (" " + (text + "\r\n")))))));
  }

  /** Status line, headers and the empty line. */
  function HeadText(major: string, minor: string, code: string, text: string, hs: seq<Header>): string {
    StatusLineText(major, minor, code, text) + (HeadersText(hs) + "\r")
  }

  lemma DigitsOf(major: string, minor: string, code: string, text: string)
    requires StatusOk(major, minor, code, text)
    ensures Digits(major) && Digits(minor) && Digits(code)
  {
  }

  lemma HeadIsRead(major: string, minor: string, code: string, text: string, hs: seq<Header>)
    requires StatusOk(major, minor, code, text) && forall i :: 0 <= i < |hs| ==> HeaderOk(hs[i])
    ensures Run(NEW_PARSER, HeadText(major, minor, code, text, hs)) == (Incompleted,
      Parser(ExpectingNewline3, Length(hs), "", 0, exists h :: h in hs && SaysChunked(h),
             Response(DecimalValue(major), DecimalValue(minor), hs, "", false, CodeValue(code), text)))
  {
    hide Run, DecimalValue, StatusLineText, HeadersText, StatusOk, HeaderOk, SaysChunked;
    assert StatusOk(major, minor, code, text);
    StatusLineIsRead(major, minor, code, text);
    DigitsOf(major, minor, code, text);
    var p := NEW_PARSER.(state := HeaderLineStart,
      resp := Response(DecimalValue(major), DecimalValue(minor), [], "", false, CodeValue(code), text));
    HeadersAreRead(p, hs);
    HeadersAreNoted(p, hs, []);
    assert [] + hs == hs;
    var q := WithHeaders(p, hs);
    One(q, '\r');
    Then(p, HeadersText(hs), q, "\r");
    Then(NEW_PARSER, StatusLineText(major, minor, code, text), p, HeadersText(hs) + "\r");
  }

  predicate IsConnection(h: Header) {
    SameIgnoringCase(h.name, "Connection")
  }

  /**
   The first Connection header says Keep-Alive, or there is none and the version is 1.1 or has a larger major number.
   */
  ghost predicate StaysAlive(major: int, minor: int, hs: seq<Header>) {
    || (exists i :: 0 <= i < |hs| && IsConnection(hs[i]) && SameIgnoringCase(hs[i].value, "Keep-Alive")
          && forall j :: 0 <= j < i ==> !IsConnection(hs[j]))
    || ((forall i :: 0 <= i < |hs| ==> !IsConnection(hs[i])) && (major > 1 || (major == 1 && minor == 1)))
  }

  lemma {:induction false} FirstConnectionIs(hs: seq<Header>)
    ensures FirstConnection(hs).None? <==> forall i :: 0 <= i < |hs| ==> !IsConnection(hs[i])
    ensures FirstConnection(hs).Some? ==>
      exists i :: 0 <= i < |hs| && hs[i] == FirstConnection(hs).value && IsConnection(hs[i])
        && forall j :: 0 <= j < i ==> !IsConnection(hs[j])
  {
    hide SameIgnoringCase;
    if hs != [] && !IsConnection(hs[0]) {
      FirstConnectionIs(hs[1..]);
      if FirstConnection(hs).Some? {
        var i :| 0 <= i < |hs[1..]| && hs[1..][i] == FirstConnection(hs).value && IsConnection(hs[1..][i])
          && forall j :: 0 <= j < i ==> !IsConnection(hs[1..][j]);
        assert hs[i + 1] == FirstConnection(hs).value;
        assert forall j :: 0 < j < i + 1 ==> hs[j] == hs[1..][j - 1];
      } else {
        assert forall j :: 0 < j < |hs| ==> hs[j] == hs[1..][j - 1];
      }
    }
  }

  /** Only the connection is decided at the end of the head. */
  lemma KeepAliveIsExact(r: Response)
    requires !r.keepAlive
    ensures NoteKeepAlive(r) == r.(keepAlive := StaysAlive(r.versionMajor, r.versionMinor, r.headers))
  {
    hide SameIgnoringCase;
    FirstConnectionIs(r.headers);
    if FirstConnection(r.headers).Some? {
      var i :| 0 <= i < |r.headers| && r.headers[i] == FirstConnection(r.headers).value && IsConnection(r.headers[i])
        && forall j :: 0 <= j < i ==> !IsConnection(r.headers[j]);
      forall k | 0 <= k < |r.headers| && IsConnection(r.headers[k])
        && forall j :: 0 <= j < k ==> !IsConnection(r.headers[j])
        ensures k == i
      {
      }
    }
  }

  /**
   A whole response with a chunked body: status, headers and the exact body come out, and nothing is left to read. The
   line feed that ends the head is not looked at: any character will do.
   */
  lemma ChunkedResponseIsParsed(major: string, minor: string, code: string, text: string, hs: seq<Header>, feed: char,
                                cs: seq<Chunk>, zero: string, x: Extension, ts: seq<Trailer>)
    requires StatusOk(major, minor, code, text) && (forall i :: 0 <= i < |hs| ==> HeaderOk(hs[i]))
    requires exists h :: h in hs && SaysChunked(h)
    requires (forall i :: 0 <= i < |cs| ==> ChunkFits(cs[i])) && SizeFits(zero, 0) && ExtensionOk(x)
    requires forall i :: 0 <= i < |ts| ==> TrailerOk(ts[i])
    ensures var (r, p) := Run(NEW_PARSER,
      HeadText(major, minor, code, text, hs) + ([feed] + ChunkedText(cs, zero, x, ts)));
      && r == Completed
      && p.resp == Response(DecimalValue(major), DecimalValue(minor), hs, Data(cs),
                            StaysAlive(DecimalValue(major), DecimalValue(minor), hs), CodeValue(code), text)
  {
    hide NoteKeepAlive, StaysAlive, Data, StatusOk, HeaderOk, SaysChunked, ChunkFits, SizeFits, ExtensionOk, TrailerOk;
    hide Run, DecimalValue, HeadText, ChunkedText, FirstConnection;
    HeadIsRead(major, minor, code, text, hs);
    var p := Run(NEW_PARSER, HeadText(major, minor, code, text, hs)).1;
    var q := p.(state := ChunkSize, resp := NoteKeepAlive(p.resp));
    One(p, feed);
    KeepAliveIsExact(p.resp);
    ChunkedBodyIsDecoded(q, cs, zero, x, ts);
    assert "" + Data(cs) == Data(cs);
    Then(p, [feed], q, ChunkedText(cs, zero, x, ts));
    Then(NEW_PARSER, HeadText(major, minor, code, text, hs), p, [feed] + ChunkedText(cs, zero, x, ts));
  }

  /**
   The same for a body of the length announced by the last Content-Length header. Only if there is no body must the head
   end with a line feed.
   */
  lemma SizedResponseIsParsed(major: string, minor: string, code: string, text: string, hs: seq<Header>, feed: char,
                              body: string)
    requires StatusOk(major, minor, code, text) && (forall i :: 0 <= i < |hs| ==> HeaderOk(hs[i]))
    requires !(exists h :: h in hs && SaysChunked(h)) && |body| == Length(hs) < SIZE_RANGE
    ensures var (r, p) := Run(NEW_PARSER, HeadText(major, minor, code, text, hs) + ([feed] + body));
      && r == (if body == "" && feed != '\n' then Error else Completed)
      && (r == Completed ==>
            p.resp == Response(DecimalValue(major), DecimalValue(minor), hs, body,
                               StaysAlive(DecimalValue(major), DecimalValue(minor), hs), CodeValue(code), text))
  {
    hide NoteKeepAlive, StaysAlive, StatusOk, HeaderOk, SaysChunked, FirstConnection, Length;
    hide Run, DecimalValue, HeadText;
    HeadIsRead(major, minor, code, text, hs);
    var p := Run(NEW_PARSER, HeadText(major, minor, code, text, hs)).1;
    var q := p.(state := Post, resp := NoteKeepAlive(p.resp));
    KeepAliveIsExact(p.resp);
    One(p, feed);
    if body == "" {
      assert [feed] + body == [feed];
    } else {
      FixedBodyIsDecoded(q, body);
      assert "" + body == body;
      Then(p, [feed], q, body);
    }
    Then(NEW_PARSER, HeadText(major, minor, code, text, hs), p, [feed] + body);
  }

  /** So whether such a response completes depends on the character in that place exactly if there is no body. */
  lemma BlankLineIsNotChecked(major: string, minor: string, code: string, text: string, hs: seq<Header>, body: string)
    requires StatusOk(major, minor, code, text) && (forall i :: 0 <= i < |hs| ==> HeaderOk(hs[i]))
    requires !(exists h :: h in hs && SaysChunked(h)) && |body| == Length(hs) < SIZE_RANGE
    ensures (forall feed: char ::
      Run(NEW_PARSER, HeadText(major, minor, code, text, hs) + ([feed] + body)).0 == Completed)
      <==> body != ""
  {
    hide Run, HeadText, StatusOk, HeaderOk, SaysChunked, Length, StaysAlive, DecimalValue;
    forall feed: char
      ensures Run(NEW_PARSER, HeadText(major, minor, code, text, hs) + ([feed] + body)).0 == Completed
        <==> body != "" || feed == '\n'
    {
      SizedResponseIsParsed(major, minor, code, text, hs, feed, body);
    }
    assert 'x' != '\n';
    assert body == "" ==> Run(NEW_PARSER, HeadText(major, minor, code, text, hs) + (['x'] + body)).0 != Completed;
  }
}
