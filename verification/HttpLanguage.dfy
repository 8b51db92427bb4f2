/**
 What the response parser accepts, exactly: the texts with which it completes are those of a grammar, and the response
 it then has is what the grammar says. The parser is more liberal than the standard: status codes of any length, headers
 continued on further lines, chunk sizes of any letters and digits.
 */
module HttpLanguage {
  import opened HttpResponse

  // ---------------------------------------------------------------- the grammar

  datatype Status = Status(major: string, minor: string, code: string, text: string)

  /** A header, or the continuation of the header before it. */
  datatype Line = Field(name: string, value: string) | Fold(blanks: string, rest: string)

  datatype Body =
    | NoBody
    | Whole(data: string)
    | Chunks(chunks: seq<Chunk>, size: string, extension: Extension, trailers: seq<Trailer>)

  /** `feed` stands where the line feed at the end of the head belongs. */
  datatype Message = Message(status: Status, lines: seq<Line>, feed: char, body: Body)

  predicate StatusFits(x: Status) {
    StatusOk(x.major, x.minor, x.code, x.text)
  }

  function StatusText(x: Status): string {
    StatusLineText(x.major, x.minor, x.code, x.text)
  }

  predicate Blank(c: char) {
    c == ' ' || c == '\t'
  }

  predicate ValueFits(s: string) {
    forall i :: 0 <= i < |s| ==> !IsControl(s[i])
  }

  predicate LineFits(l: Line) {
    match l
    case Field(name, value) => name != "" && (forall i :: 0 <= i < |name| ==> NameChar(name[i])) && ValueFits(value)
    case Fold(blanks, rest) =>
      && blanks != "" && (forall i :: 0 <= i < |blanks| ==> Blank(blanks[i]))
      && ValueFits(rest) && (rest != "" ==> !Blank(rest[0]))
  }

  predicate LinesFit(lines: seq<Line>) {
    (forall i :: 0 <= i < |lines| ==> LineFits(lines[i])) && (lines != [] ==> lines[0].Field?)
  }

  /** A line without its end. */
  function LineStart(l: Line): string {
    match l
    case Field(name, value) => name + ": " + value
    case Fold(blanks, rest) => blanks + rest
  }

  function LineText(l: Line): string {
    LineStart(l) + "\r\n"
  }

  function LinesText(lines: seq<Line>): string {
    if lines == [] then "" else LinesText(lines[..|lines| - 1]) + LineText(lines[|lines| - 1])
  }

  /** The last header's value goes on. */
  function Longer(hs: seq<Header>, rest: string): seq<Header> {
    if hs == [] then hs
    else hs[|hs| - 1 := Header(hs[|hs| - 1].name, hs[|hs| - 1].value + rest)]
  }

  function FoldedWith(hs: seq<Header>, l: Line): seq<Header> {
    match l
    case Field(name, value) => hs + [Header(name, value)]
    case Fold(_, rest) => Longer(hs, rest)
  }

  /** The headers, with what continues them. */
  function Folded(lines: seq<Line>): seq<Header> {
    if lines == [] then [] else FoldedWith(Folded(lines[..|lines| - 1]), lines[|lines| - 1])
  }

  /** Some header, as far as it had been read at the end of some line, asked for chunks. */
  ghost predicate AsksForChunks(lines: seq<Line>) {
    exists k :: 0 < k <= |lines| && Folded(lines[..k]) != []
      && SaysChunked(Folded(lines[..k])[|Folded(lines[..k])| - 1])
  }

  ghost predicate BodyFits(m: Message) {
    if AsksForChunks(m.lines) then
      && m.body.Chunks? && (forall i :: 0 <= i < |m.body.chunks| ==> ChunkFits(m.body.chunks[i]))
      && SizeFits(m.body.size, 0) && ExtensionOk(m.body.extension)
      && forall i :: 0 <= i < |m.body.trailers| ==> TrailerOk(m.body.trailers[i])
    else if Length(Folded(m.lines)) == 0 then m.body == NoBody && m.feed == '\n'
    else m.body.Whole? && |m.body.data| == Length(Folded(m.lines))
  }

  ghost predicate MessageFits(m: Message) {
    StatusFits(m.status) && LinesFit(m.lines) && BodyFits(m)
  }

  function BodyText(b: Body): string {
    match b
    case NoBody => ""
    case Whole(data) => data
    case Chunks(chunks, size, extension, trailers) => ChunkedText(chunks, size, extension, trailers)
  }

  function BodyData(b: Body): string {
    match b
    case NoBody => ""
    case Whole(data) => data
    case Chunks(chunks, _, _, _) => Data(chunks)
  }

  function MessageText(m: Message): string {
    StatusText(m.status) + (LinesText(m.lines) + ("\r" + ([m.feed] + BodyText(m.body))))
  }

  ghost function Meaning(m: Message): Response
    requires MessageFits(m)
  {
    var x, hs := m.status, Folded(m.lines);
    Response(DecimalValue(x.major), DecimalValue(x.minor), hs, BodyData(m.body),
             StaysAlive(DecimalValue(x.major), DecimalValue(x.minor), hs), CodeValue(x.code), x.text)
  }

  /** The parser asks for more up to the last character of the text and completes with that. */
  ghost predicate Completes(text: string, resp: Response) {
    && text != ""
    && var (r, p) := Run(NEW_PARSER, text[..|text| - 1]);
    && r == Incompleted && Step(p, text[|text| - 1]).0 == Completed && Step(p, text[|text| - 1]).1.resp == resp
  }

  // ---------------------------------------------------------------- the status line, as far as it has been read

  function StatusSoFar(s: State, x: Status): string {
    match s
    case StatusStart => ""
    case Ht => "H"
    case Htt => "HT"
    case Http => "HTT"
    case Slash => "HTTP"
    case MajorStart => "HTTP/"
    case Major => "HTTP/" + x.major
    case MinorStart => "HTTP/" + x.major + "."
    case Minor => "HTTP/" + x.major + "." + x.minor
    case StatusCodeStart => "HTTP/" + x.major + "." + x.minor + " "
    case StatusCode => "HTTP/" + x.major + "." + x.minor + " " + x.code
    case StatusTextStart => "HTTP/" + x.major + "." + x.minor + " " + x.code + " "
    case StatusText => "HTTP/" + x.major + "." + x.minor + " " + x.code + " " + x.text
    case _ => "HTTP/" + x.major + "." + x.minor + " " + x.code + " " + x.text + "\r"
  }

  /** How many of the four parts have been begun. */
  function Begun(s: State): nat {
    if s.Major? || s.MinorStart? then 1
    else if s.Minor? || s.StatusCodeStart? then 2
    else if s.StatusCode? || s.StatusTextStart? then 3
    else if s.StatusText? || s.NewLine? then 4
    else 0
  }

  predicate StatusSoFarFits(s: State, x: Status) {
    && AllDigits(x.major) && AllDigits(x.minor) && AllDigits(x.code) && TextFits(x.text)
    && (x.major != "" <==> Begun(s) >= 1) && (x.minor != "" <==> Begun(s) >= 2)
    && (x.code != "" <==> Begun(s) >= 3) && (x.text != "" <==> Begun(s) >= 4)
    && (s.StatusTextStart? || Begun(s) >= 4 ==> 100 <= CodeValue(x.code) <= 999)
  }

  /** The parser that has read this much, in some state. */
  function StatusParser(s: State, x: Status): Parser
    requires AllDigits(x.major) && AllDigits(x.minor) && AllDigits(x.code)
  {
    Parser(s, 0, "", 0, false,
           Response(DecimalValue(x.major), DecimalValue(x.minor), [], "", false, CodeValue(x.code), x.text))
  }

  predicate StatusSpelt(w: string, p: Parser, x: Status) {
    && InStatusLine(p.state) && StatusSoFarFits(p.state, x)
    && w == StatusSoFar(p.state, x) && p == StatusParser(p.state, x)
  }

  lemma Grows(s: string, t: string, c: char)
    ensures s + t + [c] == s + (t + [c])
  {
  }

  /** A character of the status line: part of it, or the line feed at its end. */
  lemma StatusGoesOn(w: string, p: Parser, x: Status, c: char) returns (x': Status)
    requires StatusSpelt(w, p, x) && Step(p, c).0 == Incompleted
    ensures var q := Step(p, c).1;
      if p.state.NewLine? then x' == x && c == '\n' && q == p.(state := HeaderLineStart)
      else StatusSpelt(w + [c], q, x')
  {
    NoDigits();
    hide DecimalValue;
    x' := x;
    if IsDigit(c) && (p.state.MajorStart? || p.state.Major?) {
      NumberGrows(x.major, c);
      Grows("HTTP/", x.major, c);
      x' := x.(major := x.major + [c]);
    } else if IsDigit(c) && (p.state.MinorStart? || p.state.Minor?) {
      NumberGrows(x.minor, c);
      Grows("HTTP/" + x.major + ".", x.minor, c);
      x' := x.(minor := x.minor + [c]);
    } else if IsDigit(c) && (p.state.StatusCodeStart? || p.state.StatusCode?) {
      NumberGrows(x.code, c);
      Grows("HTTP/" + x.major + "." + x.minor + " ", x.code, c);
      x' := x.(code := x.code + [c]);
    } else if p.state.StatusTextStart? || (p.state.StatusText? && c != '\r') {
      Grows("HTTP/" + x.major + "." + x.minor + " " + x.code + " ", x.text, c);
      x' := x.(text := x.text + [c]);
    }
  }

  lemma StatusEnds(w: string, p: Parser, x: Status)
    requires StatusSpelt(w, p, x) && p.state.NewLine?
    ensures StatusFits(x) && w + "\n" == StatusText(x)
  {
    var a, b, c, t := x.major, x.minor, x.code, x.text;
    assert "HTTP/" + a + "." + b + " " + c + " " + t + "\r" + "\n"
        == "HTTP/" + (a + ("." + (b + (" " + (c + (" " + (t + "\r\n")))))));
  }

  // ---------------------------------------------------------------- the headers, as far as they have been read

  function Lengthened(q: Parser, rest: string): Parser {
    q.(resp := q.resp.(headers := Longer(q.resp.headers, rest)))
  }

  /** What a line makes of the parser; a header is looked at again whenever it goes on. */
  function AfterLine(q: Parser, l: Line): Parser {
    match l
    case Field(name, value) => WithHeader(q, Header(name, value))
    case Fold(_, rest) => if rest == "" then q else NoteHeader(Lengthened(q, rest))
  }

  function AfterLines(q: Parser, lines: seq<Line>): Parser {
    if lines == [] then q else AfterLine(AfterLines(q, lines[..|lines| - 1]), lines[|lines| - 1])
  }

  function LineSoFar(s: State, l: Line): string {
    match s
    case HeaderName => if l.Field? then l.name else ""
    case SpaceBeforeHeaderValue => if l.Field? then l.name + ":" else ""
    case HeaderValue => LineStart(l)
    case HeaderLws => if l.Fold? then l.blanks else ""
    case ExpectingNewline2 => LineStart(l) + "\r"
    case ExpectingNewline3 => "\r"
    case _ => ""
  }

  /** The parser that has read this much of a line, after others. */
  function LineParser(s: State, q: Parser, l: Line): Parser {
    match s
    case HeaderValue =>
      if l.Field? then q.(state := s, resp := q.resp.(headers := q.resp.headers + [Header(l.name, l.value)]))
      else Lengthened(q, l.rest).(state := s)
    case HeaderName => if l.Field? then q.(state := s,
      resp := q.resp.(headers := q.resp.headers + [Header(l.name, "")]))
      else q
    case SpaceBeforeHeaderValue =>
      if l.Field? then q.(state := s, resp := q.resp.(headers := q.resp.headers + [Header(l.name, "")])) else q
    case ExpectingNewline2 => AfterLine(q, l).(state := s)
    case _ => q.(state := s)
  }

  predicate LineSoFarFits(s: State, l: Line, lines: seq<Line>) {
    match s
    case HeaderName => l.Field? && l.value == "" && LineFits(l)
    case SpaceBeforeHeaderValue => l.Field? && l.value == "" && LineFits(l)
    case HeaderValue => LineFits(l) && (l.Fold? ==> l.rest != "" && lines != [])
    case HeaderLws => l.Fold? && l.rest == "" && LineFits(l) && lines != []
    case ExpectingNewline2 => LineFits(l) && (l.Fold? ==> lines != [])
    case _ => true
  }

  /** v is what has been read since the status line, after which the parser was q. */
  predicate LinesSpelt(v: string, p: Parser, q: Parser, lines: seq<Line>, l: Line) {
    && InHeaders(p.state) && LinesFit(lines) && LineSoFarFits(p.state, l, lines)
    && v == LinesText(lines) + LineSoFar(p.state, l) && p == LineParser(p.state, AfterLines(q, lines), l)
  }

  lemma {:induction false} LinesGiveHeaders(q: Parser, lines: seq<Line>)
    requires LinesFit(lines)
    ensures AfterLines(q, lines).state == q.state
    ensures AfterLines(q, lines).resp == q.resp.(headers := AfterLines(q, lines).resp.headers)
    ensures lines == [] ==> AfterLines(q, lines) == q
    ensures lines != [] ==> AfterLines(q, lines).resp.headers != []
    decreases |lines|
  {
    hide SameIgnoringCase, ContentSize, NameChar, IsControl;
    if lines != [] {
      LinesGiveHeaders(q, lines[..|lines| - 1]);
    }
  }

  lemma LongerGrows(hs: seq<Header>, rest: string, c: char)
    ensures Longer(hs, rest + [c]) == Longer(Longer(hs, rest), [c])
  {
    if hs != [] {
      assert hs[|hs| - 1].value + (rest + [c]) == hs[|hs| - 1].value + rest + [c];
    }
  }

  lemma LastGrows(r: Response, hs: seq<Header>, h: Header, c: char)
    requires r.headers == hs + [h]
    ensures ValuePlus(r, c) == r.(headers := hs + [Header(h.name, h.value + [c])])
    ensures NamePlus(r, c) == r.(headers := hs + [Header(h.name + [c], h.value)])
  {
    assert r.headers[|r.headers| - 1] == h;
    assert ValuePlus(r, c).headers == hs + [Header(h.name, h.value + [c])];
    assert NamePlus(r, c).headers == hs + [Header(h.name + [c], h.value)];
  }

  lemma ValuePlusIsLonger(r: Response, c: char)
    ensures ValuePlus(r, c) == r.(headers := Longer(r.headers, [c]))
  {
  }

  /** One character of a line, from the state s on, after the lines that led to q. */
  ghost predicate Extends(q: Parser, s: State, l: Line, c: char, p': Parser, l': Line, lines: seq<Line>) {
    && InHeaders(p'.state) && p' == LineParser(p'.state, q, l') && LineSoFarFits(p'.state, l', lines)
    && LineSoFar(p'.state, l') == LineSoFar(s, l) + [c]
  }

  lemma LineBegins(q: Parser, l: Line, c: char, lines: seq<Line>) returns (l': Line)
    requires q.state.HeaderLineStart? && (q.resp.headers != [] ==> lines != []) && Step(q, c).0 == Incompleted
    ensures Extends(q, HeaderLineStart, l, c, Step(q, c).1, l', lines)
  {
    ColonIsNoName();
    hide NameChar, IsControl;
    l' := if c == '\r' then l else if c == ' ' || c == '\t' then Fold([c], "") else Field([c], "");
  }

  lemma NameGoesOn(q: Parser, s: State, l: Line, c: char, lines: seq<Line>) returns (l': Line)
    requires s.HeaderName? || s.SpaceBeforeHeaderValue?
    requires LineSoFarFits(s, l, lines) && Step(LineParser(s, q, l), c).0 == Incompleted
    ensures Extends(q, s, l, c, Step(LineParser(s, q, l), c).1, l', lines)
  {
    LastGrows(LineParser(s, q, l).resp, q.resp.headers, Header(l.name, ""), c);
    hide NameChar, IsControl, NamePlus;
    l' := if s.HeaderName? && c != ':' then Field(l.name + [c], "") else l;
    assert l.name + ":" + [' '] == l.name + ": " + "";
  }

  lemma FoldGoesOn(q: Parser, l: Line, c: char, lines: seq<Line>) returns (l': Line)
    requires LineSoFarFits(HeaderLws, l, lines) && Step(LineParser(HeaderLws, q, l), c).0 == Incompleted
    ensures Extends(q, HeaderLws, l, c, Step(LineParser(HeaderLws, q, l), c).1, l', lines)
  {
    ValuePlusIsLonger(q.resp, c);
    hide NameChar, IsControl, ValuePlus, Longer, NoteHeader;
    l' := if c == '\r' then l else if c == ' ' || c == '\t' then Fold(l.blanks + [c], "") else Fold(l.blanks, [c]);
    assert c == '\r' ==> LineStart(l) == l.blanks;
  }

  /** Looking at a header does not depend on the state. */
  lemma NoteKeepsState(p: Parser, s: State)
    ensures NoteHeader(p.(state := s)) == NoteHeader(p).(state := s)
  {
    hide SameIgnoringCase, ContentSize;
  }

  lemma ValueGoesOn(q: Parser, l: Line, c: char, lines: seq<Line>) returns (l': Line)
    requires LineSoFarFits(HeaderValue, l, lines) && Step(LineParser(HeaderValue, q, l), c).0 == Incompleted
    requires q.state.HeaderLineStart?
    ensures Extends(q, HeaderValue, l, c, Step(LineParser(HeaderValue, q, l), c).1, l', lines)
  {
    var r := LineParser(HeaderValue, q, l).resp;
    if c == '\r' {
      l' := l;
      NoteKeepsState(LineParser(HeaderValue, q, l), HeaderLineStart);
    } else if l.Field? {
      LastGrows(r, q.resp.headers, Header(l.name, l.value), c);
      Grows(l.name + ": ", l.value, c);
      l' := Field(l.name, l.value + [c]);
    } else {
      ValuePlusIsLonger(r, c);
      LongerGrows(q.resp.headers, l.rest, c);
      Grows(l.blanks, l.rest, c);
      l' := Fold(l.blanks, l.rest + [c]);
    }
    hide NameChar, IsControl, ValuePlus, Longer, NoteHeader;
  }

  /** A character within a line. */
  lemma LineGoesOn(v: string, p: Parser, q: Parser, lines: seq<Line>, l: Line, c: char) returns (l': Line)
    requires q.state.HeaderLineStart? && q.resp.headers == [] && LinesSpelt(v, p, q, lines, l)
    requires Step(p, c).0 == Incompleted && !p.state.ExpectingNewline2? && !p.state.ExpectingNewline3?
    ensures LinesSpelt(v + [c], Step(p, c).1, q, lines, l')
  {
    LinesGiveHeaders(q, lines);
    var after, s := AfterLines(q, lines), p.state;
    assert s.HeaderLineStart? ==> p == after;
    hide AfterLines, LinesText, LinesFit, Step, LineParser, LineSoFarFits, LineSoFar;
    Grows(LinesText(lines), LineSoFar(s, l), c);
    if s.HeaderLineStart? {
      l' := LineBegins(after, l, c, lines);
    } else if s.HeaderLws? {
      l' := FoldGoesOn(after, l, c, lines);
    } else if s.HeaderValue? {
      l' := ValueGoesOn(after, l, c, lines);
    } else {
      l' := NameGoesOn(after, s, l, c, lines);
    }
  }

  lemma AfterLineKeepsState(q: Parser, l: Line, s: State)
    ensures AfterLine(q, l).state == q.state
  {
    hide SameIgnoringCase, ContentSize;
  }

  lemma LinesAppend(q: Parser, lines: seq<Line>, l: Line)
    requires LinesFit(lines) && LineFits(l) && (l.Fold? ==> lines != [])
    ensures LinesFit(lines + [l]) && LinesText(lines + [l]) == LinesText(lines) + LineText(l)
    ensures AfterLines(q, lines + [l]) == AfterLine(AfterLines(q, lines), l)
  {
    var next := lines + [l];
    assert next[..|next| - 1] == lines && next[|next| - 1] == l;
    hide LineFits, LineText, AfterLine;
  }

  /** The line feed at the end of a line. */
  lemma LineEnds(v: string, p: Parser, q: Parser, lines: seq<Line>, l: Line, c: char)
    requires q.state.HeaderLineStart? && LinesSpelt(v, p, q, lines, l)
    requires Step(p, c).0 == Incompleted && p.state.ExpectingNewline2?
    ensures LinesSpelt(v + [c], Step(p, c).1, q, lines + [l], l)
  {
    LinesAppend(q, lines, l);
    LinesGiveHeaders(q, lines);
    AfterLineKeepsState(AfterLines(q, lines), l, HeaderLineStart);
    hide AfterLine, AfterLines, LineStart, LineFits, LinesFit, LinesText;
    var w, t := LinesText(lines), LineStart(l);
    assert w + (t + "\r") + "\n" == w + (t + "\r\n") + "";
  }

  // ---------------------------------------------------------------- a chunked body, as far as it has been read

  lemma {:induction false} ChunksTextAppends(cs: seq<Chunk>, c: Chunk)
    ensures ChunksText(cs + [c]) == ChunksText(cs) + ChunkText(c)
  {
    hide ChunkText;
    if cs == [] {
      assert ChunksText([c]) == ChunkText(c) + "";
      assert cs + [c] == [c];
    } else {
      ChunksTextAppends(cs[1..], c);
      assert (cs + [c])[1..] == cs[1..] + [c];
      assert ChunkText(cs[0]) + (ChunksText(cs[1..]) + ChunkText(c)) == ChunksText(cs) + ChunkText(c);
    }
  }

  lemma {:induction false} DataAppends(cs: seq<Chunk>, c: Chunk)
    ensures Data(cs + [c]) == Data(cs) + c.data
  {
    if cs == [] {
      assert Data([c]) == c.data + "";
      assert cs + [c] == [c];
    } else {
      DataAppends(cs[1..], c);
      assert (cs + [c])[1..] == cs[1..] + [c];
      assert cs[0].data + (Data(cs[1..]) + c.data) == Data(cs) + c.data;
    }
  }

  lemma {:induction false} TrailersTextAppends(ts: seq<Trailer>, t: Trailer)
    ensures TrailersText(ts + [t]) == TrailersText(ts) + TrailerText(t)
  {
    hide TrailerText;
    if ts == [] {
      assert TrailersText([t]) == TrailerText(t) + "";
      assert ts + [t] == [t];
    } else {
      TrailersTextAppends(ts[1..], t);
      assert (ts + [t])[1..] == ts[1..] + [t];
      assert TrailerText(ts[0]) + (TrailersText(ts[1..]) + TrailerText(t)) == TrailersText(ts) + TrailerText(t);
    }
  }

  predicate InChunk(s: State) {
    s.ChunkSize? || s.ChunkExtensionName? || s.ChunkExtensionValue? || s.ChunkSizeNewLine? || s.ChunkData?
    || s.ChunkDataNewLine1? || s.ChunkDataNewLine2?
  }

  predicate InData(s: State) {
    s.ChunkData? || s.ChunkDataNewLine1? || s.ChunkDataNewLine2?
  }

  function SizeText(c: Chunk): string {
    c.size + ExtensionText(c.extension)
  }

  function ChunkSoFar(s: State, c: Chunk): string {
    if s.ChunkSizeNewLine? then SizeText(c) + "\r"
    else if s.ChunkDataNewLine2? then SizeText(c) + "\r\n" + c.data + "\r"
    else if InData(s) then SizeText(c) + "\r\n" + c.data
    else SizeText(c)
  }

  predicate ChunkSoFarFits(s: State, c: Chunk) {
    && InChunk(s) && AllAlnum(c.size) && ExtensionOk(c.extension)
    && (s.ChunkSize? ==> c.extension.NoExtension?) && (s.ChunkExtensionName? ==> c.extension.Named?)
    && (s.ChunkExtensionValue? ==> c.extension.Valued?)
    && if s.ChunkData? then |c.data| < StrtolHex(c.size)
       else if InData(s) then |c.data| == StrtolHex(c.size) > 0 else c.data == ""
  }

  function ChunkParser(s: State, q: Parser, c: Chunk): Parser
    requires ChunkSoFarFits(s, c)
  {
    if InData(s) then
      q.(state := s, chunkSize := StrtolHex(c.size) - |c.data|, resp := q.resp.(content := q.resp.content + c.data))
    else q.(state := s, chunkSizeStr := c.size)
  }

  /** Between two chunks. */
  predicate BetweenChunks(q: Parser) {
    q.state.ChunkSize? && q.chunkSizeStr == "" && q.chunkSize == 0
  }

  ghost predicate ExtendsChunk(q: Parser, s: State, c: Chunk, x: char, p': Parser, c': Chunk) {
    && ChunkSoFarFits(p'.state, c') && p' == ChunkParser(p'.state, q, c')
    && ChunkSoFar(p'.state, c') == ChunkSoFar(s, c) + [x]
  }

  lemma SizeGoesOn(q: Parser, s: State, c: Chunk, x: char) returns (c': Chunk)
    requires BetweenChunks(q) && ChunkSoFarFits(s, c) && !InData(s) && !s.ChunkSizeNewLine?
    requires Step(ChunkParser(s, q, c), x).0 == Incompleted
    ensures ExtendsChunk(q, s, c, x, Step(ChunkParser(s, q, c), x).1, c')
  {
    hide StrtolHex, IsAlnum;
    match s
    case ChunkSize =>
      c' := if IsAlnum(x) then c.(size := c.size + [x]) else if x == ';' then c.(extension := Named("")) else c;
    case ChunkExtensionName =>
      var n := c.extension.name;
      c' := if IsAlnum(x) || x == ' ' then c.(extension := Named(n + [x]))
      else if x == '=' then c.(extension := Valued(n, "")) else c;
      assert c.size + (";" + n) + [x] == c.size + (";" + (n + [x]));
      assert ";" + (n + ("=" + "")) == ";" + (n + ['=']);
    case ChunkExtensionValue =>
      var n, v := c.extension.name, c.extension.value;
      c' := if IsAlnum(x) || x == ' ' then c.(extension := Valued(n, v + [x])) else c;
      assert c.size + (";" + (n + ("=" + v))) + [x] == c.size + (";" + (n + ("=" + (v + [x]))));
  }

  /** The end of the size line of a chunk that is not the last, or a character of its data, or the return behind it. */
  lemma DataGoesOn(q: Parser, s: State, c: Chunk, x: char) returns (c': Chunk)
    requires BetweenChunks(q) && ChunkSoFarFits(s, c) && !s.ChunkDataNewLine2?
    requires InData(s) || (s.ChunkSizeNewLine? && StrtolHex(c.size) > 0)
    requires Step(ChunkParser(s, q, c), x).0 == Incompleted && StrtolHex(c.size) < SIZE_RANGE
    ensures ExtendsChunk(q, s, c, x, Step(ChunkParser(s, q, c), x).1, c')
  {
    hide StrtolHex, IsAlnum, ExtensionText;
    c' := if s.ChunkData? then c.(data := c.data + [x]) else c;
    if s.ChunkData? {
      Grows(SizeText(c) + "\r\n", c.data, x);
      Grows(q.resp.content, c.data, x);
    } else if s.ChunkSizeNewLine? {
      assert SizeText(c) + "\r" + "\n" == SizeText(c) + "\r\n" + "";
      assert q.resp.content + "" == q.resp.content;
    }
  }

  lemma StrtolBound(s: string)
    ensures StrtolHex(s) < SIZE_RANGE
  {
  }

  lemma ChunkEnds(q: Parser, c: Chunk, x: char)
    requires BetweenChunks(q) && ChunkSoFarFits(ChunkDataNewLine2, c)
    requires Step(ChunkParser(ChunkDataNewLine2, q, c), x).0 == Incompleted
    ensures ChunkFits(c) && ChunkSoFar(ChunkDataNewLine2, c) + [x] == ChunkText(c)
    ensures var p' := Step(ChunkParser(ChunkDataNewLine2, q, c), x).1;
      BetweenChunks(p') && p' == q.(resp := q.resp.(content := q.resp.content + c.data))
  {
    hide StrtolHex, ExtensionText;
    var t := ExtensionText(c.extension);
    assert c.size + t + "\r\n" + c.data + "\r" + "\n" == (c.size + (t + "\r\n")) + (c.data + "\r\n");
  }

  lemma LastSizeEnds(q: Parser, c: Chunk, x: char)
    requires BetweenChunks(q) && ChunkSoFarFits(ChunkSizeNewLine, c) && StrtolHex(c.size) == 0
    requires Step(ChunkParser(ChunkSizeNewLine, q, c), x).0 == Incompleted
    ensures Step(ChunkParser(ChunkSizeNewLine, q, c), x).1 == q.(state := ChunkSizeNewLine2)
    ensures ChunkSoFar(ChunkSizeNewLine, c) + [x] == c.size + (ExtensionText(c.extension) + "\r\n")
  {
    hide StrtolHex, ExtensionText;
    var t := ExtensionText(c.extension);
    assert c.size + t + "\r" + "\n" == c.size + (t + "\r\n");
  }

  predicate InTrailer(s: State) {
    s.ChunkSizeNewLine? || s.ChunkSizeNewLine2? || s.ChunkSizeNewLine3? || s.ChunkTrailerName? || s.ChunkTrailerValue?
  }

  function TrailerSoFar(s: State, t: Trailer): string {
    match s
    case ChunkTrailerName => t.name
    case ChunkTrailerValue => t.name + ":" + t.value
    case ChunkSizeNewLine => t.name + ":" + t.value + "\r"
    case ChunkSizeNewLine3 => "\r"
    case _ => ""
  }

  predicate TrailerSoFarFits(s: State, t: Trailer) {
    InTrailer(s) && (s.ChunkTrailerName? || s.ChunkTrailerValue? || s.ChunkSizeNewLine? ==> TrailerOk(t))
    && (s.ChunkTrailerName? ==> t.value == "")
  }

  /** Between two trailers. */
  predicate BetweenTrailers(r: Parser) {
    r.state.ChunkSizeNewLine2? && r.chunkSizeStr == "" && r.chunkSize == 0
  }

  lemma TrailerGoesOn(r: Parser, s: State, t: Trailer, x: char) returns (t': Trailer)
    requires BetweenTrailers(r) && TrailerSoFarFits(s, t) && !s.ChunkSizeNewLine? && !s.ChunkSizeNewLine3?
    requires Step(r.(state := s), x).0 == Incompleted
    ensures var p' := Step(r.(state := s), x).1;
      && TrailerSoFarFits(p'.state, t') && p' == r.(state := p'.state)
      && TrailerSoFar(p'.state, t') == TrailerSoFar(s, t) + [x]
  {
    match s
    case ChunkSizeNewLine2 => t' := Trailer([x], "");
    case ChunkTrailerName => t' := if IsAlnum(x) then Trailer(t.name + [x], "") else t;
    case ChunkTrailerValue =>
      Grows(t.name + ":", t.value, x);
      t' := if IsAlnum(x) || x == ' ' then Trailer(t.name, t.value + [x]) else t;
  }

  lemma TrailerEnds(r: Parser, t: Trailer, x: char)
    requires BetweenTrailers(r) && TrailerSoFarFits(ChunkSizeNewLine, t)
    requires Step(r.(state := ChunkSizeNewLine), x).0 == Incompleted
    ensures Step(r.(state := ChunkSizeNewLine), x).1 == r
    ensures TrailerSoFar(ChunkSizeNewLine, t) + [x] == TrailerText(t)
  {
    assert t.name + ":" + t.value + "\r" + "\n" == t.name + (":" + (t.value + "\r\n"));
  }

  // ---------------------------------------------------------------- a body, as far as it has been read

  datatype BodyProgress =
    | Bytes(data: string)
    | Chunking(chunks: seq<Chunk>, chunk: Chunk)
    | Trailing(chunks: seq<Chunk>, last: Chunk, trailers: seq<Trailer>, trailer: Trailer)

  function Added(q: Parser, data: string): Parser {
    q.(resp := q.resp.(content := q.resp.content + data))
  }

  /** The chunks and the size line of the last one. */
  function ToLastSize(chunks: seq<Chunk>, last: Chunk): string {
    ChunksText(chunks) + (last.size + (ExtensionText(last.extension) + "\r\n"))
  }

  ghost predicate ChunksFit(chunks: seq<Chunk>) {
    forall i :: 0 <= i < |chunks| ==> ChunkFits(chunks[i])
  }

  ghost predicate TrailersFit(trailers: seq<Trailer>) {
    forall i :: 0 <= i < |trailers| ==> TrailerOk(trailers[i])
  }

  predicate LastFits(c: Chunk) {
    SizeFits(c.size, 0) && ExtensionOk(c.extension)
  }

  function BodySoFar(s: State, b: BodyProgress): string {
    match b
    case Bytes(data) => data
    case Chunking(chunks, chunk) => ChunksText(chunks) + ChunkSoFar(s, chunk)
    case Trailing(chunks, last, trailers, trailer) =>
      ToLastSize(chunks, last) + TrailersText(trailers) + TrailerSoFar(s, trailer)
  }

  /** The parser, which was q behind the head, has read this much of the body. */
  ghost predicate BodySpelt(p: Parser, q: Parser, b: BodyProgress) {
    match b
    case Bytes(data) =>
      && q.state.Post? && |data| < q.contentSize < SIZE_RANGE
      && p == Added(q, data).(contentSize := q.contentSize - |data|)
    case Chunking(chunks, chunk) =>
      && BetweenChunks(q) && ChunksFit(chunks) && ChunkSoFarFits(p.state, chunk)
      && p == ChunkParser(p.state, Added(q, Data(chunks)), chunk)
    case Trailing(chunks, last, trailers, trailer) =>
      && BetweenChunks(q) && ChunksFit(chunks) && LastFits(last) && TrailersFit(trailers)
      && TrailerSoFarFits(p.state, trailer) && p == Added(q, Data(chunks)).(state := p.state)
  }

  /** One character of the body. */
  ghost predicate ExtendsBody(p: Parser, q: Parser, b: BodyProgress, c: char, p': Parser, b': BodyProgress) {
    BodySpelt(p', q, b') && BodySoFar(p'.state, b') == BodySoFar(p.state, b) + [c]
  }

  lemma EmptyChunk()
    ensures var c := Chunk("", NoExtension, "");
      && ChunkSoFarFits(ChunkSize, c) && ChunkSoFar(ChunkSize, c) == ""
      && forall q: Parser :: BetweenChunks(q) ==> q.state == ChunkSize && ChunkParser(ChunkSize, q, c) == q
  {
  }

  lemma BytesGoOn(p: Parser, q: Parser, data: string, c: char)
    requires BodySpelt(p, q, Bytes(data)) && Step(p, c).0 == Incompleted
    ensures ExtendsBody(p, q, Bytes(data), c, Step(p, c).1, Bytes(data + [c]))
  {
    Grows(q.resp.content, data, c);
  }

  lemma ChunkJoins(q: Parser, chunks: seq<Chunk>, chunk: Chunk)
    requires ChunksFit(chunks) && ChunkFits(chunk)
    ensures ChunksFit(chunks + [chunk])
    ensures ChunksText(chunks) + ChunkText(chunk) == ChunksText(chunks + [chunk]) + ""
    ensures Added(Added(q, Data(chunks)), chunk.data) == Added(q, Data(chunks + [chunk]))
  {
    hide ChunksText, Data, ChunkText, ChunkFits;
    ChunksTextAppends(chunks, chunk);
    DataAppends(chunks, chunk);
    assert q.resp.content + Data(chunks) + chunk.data == q.resp.content + (Data(chunks) + chunk.data);
  }

  lemma ChunkAppends(p: Parser, q: Parser, chunks: seq<Chunk>, chunk: Chunk, c: char)
    requires BodySpelt(p, q, Chunking(chunks, chunk)) && Step(p, c).0 == Incompleted && p.state.ChunkDataNewLine2?
    ensures ExtendsBody(p, q, Chunking(chunks, chunk), c, Step(p, c).1,
                        Chunking(chunks + [chunk], Chunk("", NoExtension, "")))
  {
    hide Step, ChunksText, Data, ChunksFit, ChunkText, ChunkFits;
    Grows(ChunksText(chunks), ChunkSoFar(p.state, chunk), c);
    ChunkEnds(Added(q, Data(chunks)), chunk, c);
    ChunkJoins(q, chunks, chunk);
    EmptyChunk();
    assert Step(p, c).1 == Added(Added(q, Data(chunks)), chunk.data);
    assert Step(p, c).1.state == ChunkSize;
    hide ChunkSoFar, ChunkSoFarFits, ChunkParser;
  }

  lemma LastSizeJoins(chunks: seq<Chunk>, last: Chunk)
    ensures ChunksText(chunks) + (last.size + (ExtensionText(last.extension) + "\r\n"))
      == ToLastSize(chunks, last) + TrailersText([]) + ""
  {
    hide ChunksText, ExtensionText;
  }

  lemma LastSizeStep(p: Parser, q: Parser, chunks: seq<Chunk>, chunk: Chunk, c: char)
    requires BodySpelt(p, q, Chunking(chunks, chunk)) && Step(p, c).0 == Incompleted
    requires p.state.ChunkSizeNewLine? && StrtolHex(chunk.size) == 0
    ensures ExtendsBody(p, q, Chunking(chunks, chunk), c, Step(p, c).1, Trailing(chunks, chunk, [], Trailer("", "")))
  {
    hide Step, ChunksText, Data, ChunksFit, StrtolHex, ExtensionText;
    Grows(ChunksText(chunks), ChunkSoFar(p.state, chunk), c);
    LastSizeEnds(Added(q, Data(chunks)), chunk, c);
    LastSizeJoins(chunks, chunk);
    hide ChunkSoFar, ChunkParser, ToLastSize, TrailersText;
  }

  lemma ChunkGoesOn(p: Parser, q: Parser, chunks: seq<Chunk>, chunk: Chunk, c: char) returns (chunk': Chunk)
    requires BodySpelt(p, q, Chunking(chunks, chunk)) && Step(p, c).0 == Incompleted
    requires !p.state.ChunkDataNewLine2? && (p.state.ChunkSizeNewLine? ==> StrtolHex(chunk.size) > 0)
    ensures ExtendsBody(p, q, Chunking(chunks, chunk), c, Step(p, c).1, Chunking(chunks, chunk'))
  {
    var r, s := Added(q, Data(chunks)), p.state;
    hide Step, ChunksText, Data, ChunksFit, StrtolHex, ExtensionText;
    Grows(ChunksText(chunks), ChunkSoFar(s, chunk), c);
    StrtolBound(chunk.size);
    if InData(s) || s.ChunkSizeNewLine? {
      chunk' := DataGoesOn(r, s, chunk, c);
    } else {
      chunk' := SizeGoesOn(r, s, chunk, c);
    }
    hide ChunkSoFar, ChunkParser;
  }

  lemma TrailerJoins(before: string, trailers: seq<Trailer>, trailer: Trailer)
    requires TrailersFit(trailers) && TrailerOk(trailer)
    ensures TrailersFit(trailers + [trailer])
    ensures before + TrailersText(trailers) + TrailerText(trailer) == before + TrailersText(trailers + [trailer]) + ""
  {
    TrailersTextAppends(trailers, trailer);
    hide TrailersText, TrailerText, TrailerOk;
  }

  lemma TrailingGoesOn(p: Parser, q: Parser, b: BodyProgress, c: char) returns (b': BodyProgress)
    requires b.Trailing? && BodySpelt(p, q, b) && Step(p, c).0 == Incompleted
    ensures ExtendsBody(p, q, b, c, Step(p, c).1, b')
  {
    var Trailing(chunks, last, trailers, trailer) := b;
    var r, s := Added(q, Data(chunks)).(state := ChunkSizeNewLine2), p.state;
    var before := ToLastSize(chunks, last);
    assert !s.ChunkSizeNewLine3?;
    hide Step, Data, ChunksFit, LastFits, ToLastSize, TrailersText, TrailerText, TrailerOk, TrailersFit, StrtolHex;
    Grows(before + TrailersText(trailers), TrailerSoFar(s, trailer), c);
    if s.ChunkSizeNewLine? {
      TrailerEnds(r, trailer, c);
      TrailerJoins(before, trailers, trailer);
      b' := Trailing(chunks, last, trailers + [trailer], trailer);
    } else {
      var trailer' := TrailerGoesOn(r, s, trailer, c);
      b' := Trailing(chunks, last, trailers, trailer');
    }
  }

  lemma BodyGoesOn(p: Parser, q: Parser, b: BodyProgress, c: char) returns (b': BodyProgress)
    requires BodySpelt(p, q, b) && Step(p, c).0 == Incompleted
    ensures ExtendsBody(p, q, b, c, Step(p, c).1, b')
  {
    hide Step, BodySpelt, ExtendsBody, StrtolHex;
    match b
    case Bytes(data) =>
      BytesGoOn(p, q, data, c);
      b' := Bytes(data + [c]);
    case Chunking(chunks, chunk) =>
      if p.state.ChunkDataNewLine2? {
        ChunkAppends(p, q, chunks, chunk, c);
        b' := Chunking(chunks + [chunk], Chunk("", NoExtension, ""));
      } else if p.state.ChunkSizeNewLine? && StrtolHex(chunk.size) == 0 {
        LastSizeStep(p, q, chunks, chunk, c);
        b' := Trailing(chunks, chunk, [], Trailer("", ""));
      } else {
        var chunk' := ChunkGoesOn(p, q, chunks, chunk, c);
        b' := Chunking(chunks, chunk');
      }
    case Trailing(_, _, _, _) => b' := TrailingGoesOn(p, q, b, c);
  }

  // ---------------------------------------------------------------- everything that has been read

  /** What a text that the parser has taken in spells so far. */
  datatype Progress =
    | InStatus(x: Status)
    | InLines(x: Status, lines: seq<Line>, line: Line)
    | InBody(x: Status, lines: seq<Line>, feed: char, body: BodyProgress)

  function AfterStatus(x: Status): Parser
    requires StatusFits(x)
  {
    NEW_PARSER.(state := HeaderLineStart, resp := Response(DecimalValue(x.major), DecimalValue(x.minor), [], "", false,
                                                           CodeValue(x.code), x.text))
  }

  /** The parser behind the head, in the state that the body needs. */
  function AfterHead(x: Status, lines: seq<Line>): Parser
    requires StatusFits(x)
  {
    var q := AfterLines(AfterStatus(x), lines);
    q.(state := if q.chunked then ChunkSize else Post, resp := NoteKeepAlive(q.resp))
  }

  function HeadSpelt(x: Status, lines: seq<Line>, feed: char): string {
    StatusText(x) + LinesText(lines) + "\r" + [feed]
  }

  ghost predicate Spelt(w: string, p: Parser, g: Progress) {
    match g
    case InStatus(x) => StatusSpelt(w, p, x)
    case InLines(x, lines, line) =>
      var v := LinesText(lines) + LineSoFar(p.state, line);
      StatusFits(x) && w == StatusText(x) + v && LinesSpelt(v, p, AfterStatus(x), lines, line)
    case InBody(x, lines, feed, body) =>
      && StatusFits(x) && LinesFit(lines) && BodySpelt(p, AfterHead(x, lines), body)
      && w == HeadSpelt(x, lines, feed) + BodySoFar(p.state, body)
  }

  lemma StatusStep(w: string, p: Parser, x: Status, c: char) returns (g: Progress)
    requires StatusSpelt(w, p, x) && Step(p, c).0 == Incompleted
    ensures Spelt(w + [c], Step(p, c).1, g)
  {
    var x' := StatusGoesOn(w, p, x, c);
    if p.state.NewLine? {
      StatusEnds(w, p, x);
      var line := Field("", "");
      g := InLines(x, [], line);
      assert StatusText(x) == StatusText(x) + "";
      assert LinesSpelt("", Step(p, c).1, AfterStatus(x), [], line);
    } else {
      g := InStatus(x');
    }
  }

  lemma SizeInRange()
    ensures forall s :: ContentSize(s) < SIZE_RANGE
  {
    hide TrimLeft, DecimalPrefix, DecimalValue;
  }

  lemma {:induction false} LengthInRange(q: Parser, lines: seq<Line>)
    requires q.contentSize < SIZE_RANGE && q.chunkSize == 0 && q.chunkSizeStr == ""
    ensures AfterLines(q, lines).contentSize < SIZE_RANGE && AfterLines(q, lines).chunkSize == 0
    ensures AfterLines(q, lines).chunkSizeStr == ""
    decreases |lines|
  {
    hide SameIgnoringCase;
    if lines != [] {
      LengthInRange(q, lines[..|lines| - 1]);
      SizeInRange();
      hide ContentSize;
    }
  }

  lemma HeadStep(p: Parser, c: char)
    requires p.state.ExpectingNewline3? && Step(p, c).0 == Incompleted
    ensures Step(p, c).1 == p.(state := if p.chunked then ChunkSize else Post, resp := NoteKeepAlive(p.resp))
    ensures !p.chunked ==> p.contentSize > 0
  {
    hide NoteKeepAlive;
  }

  /** Behind the head nothing of the body has been read. */
  lemma BodyBegins(q: Parser) returns (b: BodyProgress)
    requires q.chunkSize == 0 && q.chunkSizeStr == ""
    requires q.state.ChunkSize? || (q.state.Post? && 0 < q.contentSize < SIZE_RANGE)
    ensures BodySpelt(q, q, b) && BodySoFar(q.state, b) == ""
  {
    assert q.resp.content + "" == q.resp.content;
    EmptyChunk();
    hide ChunkSoFar, ChunkSoFarFits, ChunkParser;
    b := if q.state.Post? then Bytes("") else Chunking([], Chunk("", NoExtension, ""));
  }

  /** The character at the end of the head, when a body follows. */
  lemma HeadEnds(v: string, p: Parser, x: Status, lines: seq<Line>, line: Line, c: char) returns (g: Progress)
    requires StatusFits(x) && LinesSpelt(v, p, AfterStatus(x), lines, line) && p.state.ExpectingNewline3?
    requires Step(p, c).0 == Incompleted
    ensures Spelt(StatusText(x) + v + [c], Step(p, c).1, g)
  {
    HeadStep(p, c);
    LengthInRange(AfterStatus(x), lines);
    hide StatusText, StatusFits, LinesText, LinesFit, AfterLines, AfterStatus, NoteKeepAlive, Step, LineSoFarFits;
    hide BodySpelt, BodySoFar;
    assert StatusText(x) + (LinesText(lines) + "\r") + [c] == HeadSpelt(x, lines, c) + "";
    hide HeadSpelt;
    var b := BodyBegins(AfterHead(x, lines));
    g := InBody(x, lines, c, b);
  }

  lemma LinesStep(w: string, p: Parser, g: Progress, c: char) returns (g': Progress)
    requires g.InLines? && Spelt(w, p, g) && Step(p, c).0 == Incompleted
    ensures Spelt(w + [c], Step(p, c).1, g')
  {
    var InLines(x, lines, line) := g;
    var q := AfterStatus(x);
    var v := LinesText(lines) + LineSoFar(p.state, line);
    hide StatusText, LinesText, LinesFit, LineSoFar, LineSoFarFits, LineParser, StatusFits, Step, AfterStatus,
      StatusSpelt, BodySpelt, HeadSpelt, BodySoFar;
    Grows(StatusText(x), v, c);
    if p.state.ExpectingNewline3? {
      g' := HeadEnds(v, p, x, lines, line, c);
    } else if p.state.ExpectingNewline2? {
      LineEnds(v, p, q, lines, line, c);
      g' := InLines(x, lines + [line], line);
    } else {
      var line' := LineGoesOn(v, p, q, lines, line, c);
      g' := InLines(x, lines, line');
    }
  }

  /** Whatever the parser takes in without an end or an error, goes on with what was spelt before. */
  lemma GoesOn(w: string, p: Parser, g: Progress, c: char) returns (g': Progress)
    requires Spelt(w, p, g) && Step(p, c).0 == Incompleted
    ensures Spelt(w + [c], Step(p, c).1, g')
  {
    hide Step, StatusSpelt, LinesSpelt, BodySpelt, BodySoFar, HeadSpelt, StatusFits, AfterHead, LinesFit;
    match g
    case InStatus(x) => g' := StatusStep(w, p, x, c);
    case InLines(_, _, _) => g' := LinesStep(w, p, g, c);
    case InBody(x, lines, feed, body) =>
      var body' := BodyGoesOn(p, AfterHead(x, lines), body, c);
      Grows(HeadSpelt(x, lines, feed), BodySoFar(p.state, body), c);
      g' := InBody(x, lines, feed, body');
  }

  lemma NothingSpelt()
    ensures Spelt("", NEW_PARSER, InStatus(Status("", "", "", "")))
  {
  }

  /** Every text that the parser has taken in spells something. */
  lemma {:induction false} TakenIsSpelt(w: string) returns (g: Progress)
    requires Run(NEW_PARSER, w).0 == Incompleted
    ensures Spelt(w, Run(NEW_PARSER, w).1, g)
    decreases |w|
  {
    hide Run, Step, Spelt;
    if w == "" {
      RunNothing(NEW_PARSER);
      g := InStatus(Status("", "", "", ""));
      NothingSpelt();
    } else {
      var u, c := w[..|w| - 1], w[|w| - 1];
      assert w == u + [c];
      RunConcat(NEW_PARSER, u, [c]);
      One(Run(NEW_PARSER, u).1, c);
      var g0 := TakenIsSpelt(u);
      g := GoesOn(u, Run(NEW_PARSER, u).1, g0, c);
    }
  }

  // ---------------------------------------------------------------- what the lines come to

  /** The last header after some lines asks for chunks. */
  predicate LastAsks(hs: seq<Header>) {
    hs != [] && SaysChunked(hs[|hs| - 1])
  }

  lemma AsksNext(lines: seq<Line>, l: Line)
    ensures AsksForChunks(lines + [l]) <==> AsksForChunks(lines) || LastAsks(Folded(lines + [l]))
  {
    hide Folded, SaysChunked;
    var next := lines + [l];
    assert next[..|next|] == next;
    assert forall k :: 0 <= k <= |lines| ==> next[..k] == lines[..k];
    if AsksForChunks(next) {
      var k :| 0 < k <= |next| && Folded(next[..k]) != [] && SaysChunked(Folded(next[..k])[|Folded(next[..k])| - 1]);
      if k <= |lines| {
        assert next[..k] == lines[..k];
      }
    }
    if AsksForChunks(lines) {
      var k :| 0 < k <= |lines| && Folded(lines[..k]) != []
          && SaysChunked(Folded(lines[..k])[|Folded(lines[..k])| - 1]);
      assert next[..k] == lines[..k];
    }
    if LastAsks(Folded(next)) {
      assert Folded(next[..|next|]) == Folded(next);
    }
  }

  lemma LastAsksIsAsking(lines: seq<Line>)
    requires lines != [] && LastAsks(Folded(lines))
    ensures AsksForChunks(lines)
  {
    hide Folded, SaysChunked;
    assert lines[..|lines|] == lines;
  }

  lemma FoldedNext(lines: seq<Line>, l: Line)
    ensures Folded(lines + [l]) == FoldedWith(Folded(lines), l)
  {
    assert (lines + [l])[..|lines|] == lines;
  }

  lemma FieldsFirst(lines: seq<Line>)
    requires LinesFit(lines) && lines != []
    ensures Folded(lines) != []
  {
    hide LineFits;
    if |lines| > 1 {
      FieldsFirst(lines[..|lines| - 1]);
    }
  }

  lemma NotedIsLast(q: Parser, hs: seq<Header>)
    requires hs != [] && q.resp.headers == hs
    requires q.contentSize == Length(hs[..|hs| - 1])
      || SameIgnoringCase(hs[|hs| - 1].name, "Content-Length")
    ensures NoteHeader(q) == q.(contentSize := Length(hs), chunked := q.chunked || LastAsks(hs))
  {
    OneKindOnly(hs[|hs| - 1]);
    hide SameIgnoringCase, ContentSize;
  }

  /** The headers, the length, and whether there are chunks, by what the lines say. */
  ghost predicate Says(q: Parser, lines: seq<Line>) {
    && q.resp.headers == Folded(lines) && q.contentSize == Length(Folded(lines))
    && (q.chunked <==> AsksForChunks(lines))
  }

  lemma FieldSays(q: Parser, lines: seq<Line>, name: string, value: string)
    requires Says(q, lines)
    ensures Says(WithHeader(q, Header(name, value)), lines + [Field(name, value)])
  {
    var hs, h := Folded(lines), Header(name, value);
    FoldedNext(lines, Field(name, value));
    AsksNext(lines, Field(name, value));
    assert (hs + [h])[..|hs + [h]| - 1] == hs;
    hide Folded, Length, AsksForChunks, NoteHeader;
    NotedIsLast(q.(resp := q.resp.(headers := hs + [h])), hs + [h]);
  }

  lemma FoldSays(q: Parser, lines: seq<Line>, blanks: string, rest: string)
    requires Says(q, lines) && Folded(lines) != [] && lines != []
    ensures Says(AfterLine(q, Fold(blanks, rest)), lines + [Fold(blanks, rest)])
  {
    var hs := Folded(lines);
    FoldedNext(lines, Fold(blanks, rest));
    AsksNext(lines, Fold(blanks, rest));
    var next := Longer(hs, rest);
    if rest == "" {
      assert hs[|hs| - 1].value + "" == hs[|hs| - 1].value;
      assert next == hs;
      if LastAsks(hs) {
        LastAsksIsAsking(lines);
      }
    } else {
      assert next[..|next| - 1] == hs[..|hs| - 1] && next[|next| - 1].name == hs[|hs| - 1].name;
      assert Length(hs) == Length(hs[..|hs| - 1]) || SameIgnoringCase(hs[|hs| - 1].name, "Content-Length");
      hide Folded, Length, AsksForChunks, NoteHeader, SameIgnoringCase;
      NotedIsLast(Lengthened(q, rest), next);
    }
  }

  lemma {:induction false} LinesSay(q: Parser, lines: seq<Line>)
    requires q.resp.headers == [] && q.contentSize == 0 && !q.chunked && LinesFit(lines)
    ensures Says(AfterLines(q, lines), lines)
    decreases |lines|
  {
    hide NoteHeader, LineFits, SameIgnoringCase, Longer;
    if lines != [] {
      var before, l := lines[..|lines| - 1], lines[|lines| - 1];
      assert lines == before + [l];
      LinesSay(q, before);
      match l
      case Field(name, value) => FieldSays(AfterLines(q, before), before, name, value);
      case Fold(blanks, rest) =>
        FieldsFirst(before);
        FoldSays(AfterLines(q, before), before, blanks, rest);
    }
  }

  // ---------------------------------------------------------------- only messages of the grammar complete

  /** What the parser behind the head knows. */
  lemma HeadMeans(x: Status, lines: seq<Line>)
    requires StatusFits(x) && LinesFit(lines)
    ensures var q, hs := AfterHead(x, lines), Folded(lines);
      && q == Parser(if AsksForChunks(lines) then ChunkSize else Post, Length(hs), "", 0, AsksForChunks(lines),
                     Response(DecimalValue(x.major), DecimalValue(x.minor), hs, "",
                              StaysAlive(DecimalValue(x.major), DecimalValue(x.minor), hs), CodeValue(x.code), x.text))
  {
    var q := AfterStatus(x);
    LinesSay(q, lines);
    LinesGiveHeaders(q, lines);
    LengthInRange(q, lines);
    KeepAliveIsExact(AfterLines(q, lines).resp);
    hide StatusFits, LinesFit, AfterLines, NoteKeepAlive, StaysAlive, AsksForChunks, Length, Folded, DecimalValue;
  }

  lemma MessageJoins(m: Message)
    ensures HeadSpelt(m.status, m.lines, m.feed) + BodyText(m.body) == MessageText(m)
  {
    hide StatusText, LinesText, BodyText;
    var a, b, c := StatusText(m.status), LinesText(m.lines), BodyText(m.body);
    assert a + b + "\r" + [m.feed] + c == a + (b + ("\r" + ([m.feed] + c)));
  }

  lemma HeadCompletes(p: Parser, c: char)
    requires InHeaders(p.state) && Step(p, c).0 == Completed
    ensures p.state.ExpectingNewline3? && !p.chunked && p.contentSize == 0 && c == '\n'
    ensures Step(p, c).1.resp == NoteKeepAlive(p.resp)
  {
    hide NoteKeepAlive;
  }

  lemma NoBodyFits(x: Status, lines: seq<Line>)
    requires StatusFits(x) && LinesFit(lines)
    requires AfterHead(x, lines).state.Post? && AfterHead(x, lines).contentSize == 0
    ensures MessageFits(Message(x, lines, '\n', NoBody))
    ensures Meaning(Message(x, lines, '\n', NoBody)) == AfterHead(x, lines).resp
  {
    HeadMeans(x, lines);
    hide StatusFits, LinesFit, AfterHead, AsksForChunks, StaysAlive, Length, Folded, DecimalValue, CodeValue;
  }

  lemma NoBodyCompletes(w: string, p: Parser, g: Progress, c: char) returns (m: Message)
    requires g.InLines? && Spelt(w, p, g) && Step(p, c).0 == Completed
    ensures MessageFits(m) && w + [c] == MessageText(m) && Step(p, c).1.resp == Meaning(m)
  {
    var InLines(x, lines, line) := g;
    var v := LinesText(lines) + LineSoFar(p.state, line);
    HeadCompletes(p, c);
    assert p == AfterLines(AfterStatus(x), lines).(state := ExpectingNewline3) && v == LinesText(lines) + "\r";
    assert LinesFit(lines) && AfterHead(x, lines).state.Post? && AfterHead(x, lines).contentSize == 0;
    assert Step(p, c).1.resp == AfterHead(x, lines).resp;
    m := Message(x, lines, c, NoBody);
    hide StatusText, LinesText, StatusFits, LinesFit, AfterHead, LinesSpelt, MessageFits, Meaning, MessageText, Step;
    NoBodyFits(x, lines);
    MessageJoins(m);
    assert StatusText(x) + (LinesText(lines) + "\r") + [c] == HeadSpelt(x, lines, c) + "";
  }

  /** A body that is complete, behind a head that left the parser as q. */
  ghost predicate BodyOf(q: Parser, body: Body) {
    if q.state.Post? then body.Whole? && |body.data| == q.contentSize > 0
    else
      && q.state.ChunkSize? && body.Chunks? && ChunksFit(body.chunks) && TrailersFit(body.trailers)
      && LastFits(Chunk(body.size, body.extension, ""))
  }

  lemma BytesEnd(p: Parser, q: Parser, data: string, c: char)
    requires BodySpelt(p, q, Bytes(data)) && Step(p, c).0 == Completed && q.resp.content == ""
    ensures BodyOf(q, Whole(data + [c])) && Step(p, c).1.resp == q.resp.(content := data + [c])
  {
    assert "" + data + [c] == data + [c];
  }

  lemma TrailersJoin(chunks: seq<Chunk>, last: Chunk, trailers: seq<Trailer>)
    ensures ToLastSize(chunks, last) + TrailersText(trailers) + "\r" + "\n"
      == ChunkedText(chunks, last.size, last.extension, trailers)
  {
    hide ChunksText, ExtensionText, TrailersText;
    var size := last.size + (ExtensionText(last.extension) + "\r\n");
    assert ChunksText(chunks) + size + TrailersText(trailers) + "\r" + "\n"
        == ChunksText(chunks) + (size + (TrailersText(trailers) + "\r\n"));
  }

  lemma LastStep(p: Parser, c: char)
    requires InTrailer(p.state) && Step(p, c).0 == Completed
    ensures p.state.ChunkSizeNewLine3? && c == '\n' && Step(p, c).1 == p
  {
  }

  lemma TrailingEnds(p: Parser, q: Parser, b: BodyProgress, c: char)
    requires b.Trailing? && BodySpelt(p, q, b) && Step(p, c).0 == Completed && q.resp.content == ""
    ensures var body := Chunks(b.chunks, b.last.size, b.last.extension, b.trailers);
      && BodyOf(q, body) && Step(p, c).1.resp == q.resp.(content := Data(b.chunks))
      && BodyText(body) == BodySoFar(p.state, b) + [c]
  {
    LastStep(p, c);
    assert "" + Data(b.chunks) == Data(b.chunks);
    hide Step, ChunksText, ExtensionText, TrailersText, Data, ChunksFit, TrailersFit, StrtolHex, TrailerOk, ToLastSize;
    hide ChunkedText;
    TrailersJoin(b.chunks, b.last, b.trailers);
  }

  /** The last character of a body, after what has been read of it. */
  lemma BodyEnds(p: Parser, q: Parser, b: BodyProgress, c: char) returns (body: Body)
    requires BodySpelt(p, q, b) && Step(p, c).0 == Completed && q.resp.content == ""
    ensures BodyOf(q, body) && BodyText(body) == BodySoFar(p.state, b) + [c]
    ensures Step(p, c).1.resp == q.resp.(content := BodyData(body))
  {
    assert !b.Chunking?;
    hide BodySpelt, Step, ChunkedText, BodyOf;
    if b.Bytes? {
      BytesEnd(p, q, b.data, c);
      body := Whole(b.data + [c]);
    } else {
      TrailingEnds(p, q, b, c);
      body := Chunks(b.chunks, b.last.size, b.last.extension, b.trailers);
    }
  }

  lemma BodyOfFits(x: Status, lines: seq<Line>, feed: char, body: Body)
    requires StatusFits(x) && LinesFit(lines) && BodyOf(AfterHead(x, lines), body)
    ensures MessageFits(Message(x, lines, feed, body))
    ensures Meaning(Message(x, lines, feed, body)) == AfterHead(x, lines).resp.(content := BodyData(body))
  {
    HeadMeans(x, lines);
    hide StatusFits, LinesFit, AfterHead, AsksForChunks, StaysAlive, Length, Folded, ChunkFits, TrailerOk, StrtolHex;
    hide BodyData, DecimalValue, CodeValue;
  }

  lemma BodyCompletes(w: string, p: Parser, g: Progress, c: char) returns (m: Message)
    requires g.InBody? && Spelt(w, p, g) && Step(p, c).0 == Completed
    ensures MessageFits(m) && w + [c] == MessageText(m) && Step(p, c).1.resp == Meaning(m)
  {
    var InBody(x, lines, feed, b) := g;
    HeadMeans(x, lines);
    assert AfterHead(x, lines).resp.content == "";
    hide StatusFits, LinesFit, AfterHead, BodySpelt, BodySoFar, HeadSpelt, Step, BodyText, BodyData, BodyOf;
    hide MessageText, MessageFits, Meaning;
    var body := BodyEnds(p, AfterHead(x, lines), b, c);
    m := Message(x, lines, feed, body);
    BodyOfFits(x, lines, feed, body);
    MessageJoins(m);
    Grows(HeadSpelt(x, lines, feed), BodySoFar(p.state, b), c);
  }

  lemma StatusNeverCompletes(w: string, p: Parser, g: Progress, c: char)
    requires Spelt(w, p, g) && Step(p, c).0 == Completed
    ensures !g.InStatus?
  {
    if g.InStatus? {
      assert false;
    }
  }

  lemma Completion(w: string, p: Parser, g: Progress, c: char) returns (m: Message)
    requires Spelt(w, p, g) && Step(p, c).0 == Completed
    ensures MessageFits(m) && w + [c] == MessageText(m) && Step(p, c).1.resp == Meaning(m)
  {
    StatusNeverCompletes(w, p, g, c);
    hide Spelt, Step, MessageFits, MessageText, Meaning;
    if g.InLines? {
      m := NoBodyCompletes(w, p, g, c);
    } else {
      m := BodyCompletes(w, p, g, c);
    }
  }

  /** A text that completes is a message of the grammar, and the response is what the message means. */
  lemma CompletedIsMessage(text: string, resp: Response) returns (m: Message)
    requires Completes(text, resp)
    ensures MessageFits(m) && text == MessageText(m) && resp == Meaning(m)
  {
    hide Run, Step, Spelt, MessageFits, MessageText, Meaning;
    var w, c := text[..|text| - 1], text[|text| - 1];
    assert text == w + [c];
    var g := TakenIsSpelt(w);
    m := Completion(w, Run(NEW_PARSER, w).1, g, c);
  }

  // ---------------------------------------------------------------- every message of the grammar completes

  lemma FieldIsRead(q: Parser, l: Line)
    requires q.state.HeaderLineStart? && l.Field? && LineFits(l)
    ensures Run(q, LineText(l)) == (Incompleted, AfterLine(q, l))
  {
    hide Run, NameChar, IsControl, NoteHeader;
    HeaderIsRead(q, Header(l.name, l.value));
    assert l.name + ": " + l.value + "\r\n" == l.name + (": " + (l.value + "\r\n"));
  }

  /** The blanks that begin a continuation. */
  lemma BlanksAreRead(q: Parser, blanks: string)
    requires q.state.HeaderLineStart? && q.resp.headers != [] && blanks != ""
    requires forall i :: 0 <= i < |blanks| ==> Blank(blanks[i])
    ensures Run(q, blanks) == (Incompleted, q.(state := HeaderLws))
  {
    hide Run;
    var r := q.(state := HeaderLws);
    One(q, blanks[0]);
    Skips(r, blanks[1..]);
    Then(q, [blanks[0]], r, blanks[1..]);
    assert [blanks[0]] + blanks[1..] == blanks;
  }

  lemma RestBegins(q: Parser, c: char)
    requires q.state.HeaderLws? && q.resp.headers != [] && !Blank(c) && !IsControl(c)
    ensures Run(q, [c]) == (Incompleted, Lengthened(q, [c]).(state := HeaderValue))
  {
    hide Run;
    One(q, c);
    ValuePlusIsLonger(q.resp, c);
    assert c != '\r';
  }

  lemma RestIsCollected(q: Parser, t: string)
    requires q.state.HeaderValue? && q.resp.headers != [] && ValueFits(t)
    ensures Run(q, t) == (Incompleted, Lengthened(q, t))
  {
    hide Run, IsControl;
    var hs := q.resp.headers;
    var before, h := hs[..|hs| - 1], hs[|hs| - 1];
    assert hs == before + [h];
    ValueIsCollected(q, before, h, t);
    assert Longer(hs, t) == before + [Header(h.name, h.value + t)];
  }

  lemma LongerTwice(hs: seq<Header>, c: char, t: string)
    ensures Longer(Longer(hs, [c]), t) == Longer(hs, [c] + t)
  {
    if hs != [] {
      assert hs[|hs| - 1].value + [c] + t == hs[|hs| - 1].value + ([c] + t);
    }
  }

  lemma ValueEnds(d: Parser)
    requires d.state.HeaderValue?
    ensures Run(d, "\r\n") == (Incompleted, NoteHeader(d.(state := HeaderLineStart)))
  {
    NoteKeepsState(d, HeaderLineStart);
    NoteKeepsState(d, ExpectingNewline2);
    hide Run, NoteHeader;
    Two(d, '\r', '\n');
  }

  lemma RestIsRead(q: Parser, rest: string)
    requires q.state.HeaderLws? && q.resp.headers != [] && rest != "" && ValueFits(rest) && !Blank(rest[0])
    ensures Run(q, rest + "\r\n") == (Incompleted, NoteHeader(Lengthened(q.(state := HeaderLineStart), rest)))
  {
    var c, t := rest[0], rest[1..];
    var r := Lengthened(q, [c]).(state := HeaderValue);
    var d := Lengthened(q, rest).(state := HeaderValue);
    RestBegins(q, c);
    RestIsCollected(r, t);
    LongerTwice(q.resp.headers, c, t);
    assert [c] + t == rest;
    hide Run, NoteHeader, Step, Longer, IsControl, Blank;
    Then(q, [c], r, t);
    assert Run(q, rest) == (Incompleted, d);
    ValueEnds(d);
    Then(q, rest, d, "\r\n");
  }

  lemma FoldIsRead(q: Parser, l: Line)
    requires q.state.HeaderLineStart? && l.Fold? && LineFits(l) && q.resp.headers != []
    ensures Run(q, LineText(l)) == (Incompleted, AfterLine(q, l))
  {
    hide Run, NoteHeader, IsControl;
    var r := q.(state := HeaderLws);
    BlanksAreRead(q, l.blanks);
    assert l.blanks + l.rest + "\r\n" == l.blanks + (l.rest + "\r\n");
    if l.rest == "" {
      Two(r, '\r', '\n');
      assert "" + "\r\n" == "\r\n";
    } else {
      RestIsRead(r, l.rest);
      assert Lengthened(r.(state := HeaderLineStart), l.rest) == Lengthened(q, l.rest);
    }
    Then(q, l.blanks, r, l.rest + "\r\n");
  }

  lemma {:induction false} LinesAreRead(q: Parser, lines: seq<Line>)
    requires q.state.HeaderLineStart? && LinesFit(lines)
    ensures Run(q, LinesText(lines)) == (Incompleted, AfterLines(q, lines))
    decreases |lines|
  {
    hide Run, LineText, AfterLine, LineFits;
    if lines == [] {
      RunNothing(q);
    } else {
      var before, l := lines[..|lines| - 1], lines[|lines| - 1];
      LinesAreRead(q, before);
      LinesGiveHeaders(q, before);
      if l.Field? {
        FieldIsRead(AfterLines(q, before), l);
      } else {
        FoldIsRead(AfterLines(q, before), l);
      }
      Then(q, LinesText(before), AfterLines(q, before), LineText(l));
    }
  }

  /** The head up to the return of its last line. */
  lemma HeadIsTaken(x: Status, lines: seq<Line>)
    requires StatusFits(x) && LinesFit(lines)
    ensures Run(NEW_PARSER, StatusText(x) + LinesText(lines) + "\r")
      == (Incompleted, AfterLines(AfterStatus(x), lines).(state := ExpectingNewline3))
  {
    var q := AfterStatus(x);
    var r := AfterLines(q, lines);
    StatusLineIsRead(x.major, x.minor, x.code, x.text);
    LinesAreRead(q, lines);
    LinesGiveHeaders(q, lines);
    hide Run, StatusText, LinesText, AfterLines, AfterStatus, StatusFits, LinesFit;
    Then(NEW_PARSER, StatusText(x), q, LinesText(lines));
    One(r, '\r');
    Then(NEW_PARSER, StatusText(x) + LinesText(lines), r, "\r");
  }

  /** And with the character behind it, if there is a body. */
  lemma HeadIsPassed(x: Status, lines: seq<Line>, feed: char)
    requires StatusFits(x) && LinesFit(lines)
    requires AfterHead(x, lines).state.Post? ==> AfterHead(x, lines).contentSize > 0
    ensures Run(NEW_PARSER, HeadSpelt(x, lines, feed)) == (Incompleted, AfterHead(x, lines))
  {
    HeadIsTaken(x, lines);
    var p := AfterLines(AfterStatus(x), lines).(state := ExpectingNewline3);
    hide Run, StatusText, LinesText, AfterLines, AfterStatus, StatusFits, LinesFit, NoteKeepAlive;
    One(p, feed);
    Then(NEW_PARSER, StatusText(x) + LinesText(lines) + "\r", p, [feed]);
  }

  lemma {:induction false} BytesAreTaken(q: Parser, data: string)
    requires q.state.Post? && |data| < q.contentSize < SIZE_RANGE
    ensures Run(q, data) == (Incompleted, Added(q, data).(contentSize := q.contentSize - |data|))
    decreases |data|
  {
    if data == "" {
      assert q.resp.content + "" == q.resp.content;
    } else {
      BytesAreTaken(Step(q, data[0]).1, data[1..]);
      assert q.resp.content + [data[0]] + data[1..] == q.resp.content + data;
    }
  }

  /** The last character of a text, and what is before it. */
  lemma CompletesWith(before: string, c: char, p: Parser, resp: Response)
    requires Run(NEW_PARSER, before) == (Incompleted, p) && Step(p, c).0 == Completed && Step(p, c).1.resp == resp
    ensures Completes(before + [c], resp)
  {
    hide Run, Step;
    assert (before + [c])[..|before + [c]| - 1] == before;
  }

  lemma NoBodyIsCompleted(m: Message)
    requires MessageFits(m) && m.body.NoBody?
    ensures Completes(MessageText(m), Meaning(m))
  {
    var x, lines := m.status, m.lines;
    HeadMeans(x, lines);
    HeadIsTaken(x, lines);
    var p := AfterLines(AfterStatus(x), lines).(state := ExpectingNewline3);
    MessageJoins(m);
    assert HeadSpelt(x, lines, '\n') + "" == HeadSpelt(x, lines, '\n');
    assert Meaning(m) == NoteKeepAlive(p.resp) && p.contentSize == 0 && !p.chunked && m.feed == '\n' by {
      hide StatusFits, LinesFit, AsksForChunks, StaysAlive, Length, Folded, NoteKeepAlive, AfterLines, DecimalValue;
    }
    hide StatusText, LinesText, AfterLines, AfterStatus, MessageFits, Meaning, MessageText, NoteKeepAlive, Run;
    CompletesWith(StatusText(x) + LinesText(lines) + "\r", '\n', p, Meaning(m));
  }

  lemma WholeIsTaken(q: Parser, data: string) returns (v: string, c: char, p: Parser)
    requires q.state.Post? && 0 < |data| == q.contentSize < SIZE_RANGE && q.resp.content == ""
    ensures v + [c] == data && Run(q, v) == (Incompleted, p)
    ensures Step(p, c).0 == Completed && Step(p, c).1.resp == q.resp.(content := data)
  {
    hide Run;
    v, c := data[..|data| - 1], data[|data| - 1];
    BytesAreTaken(q, v);
    p := Added(q, v).(contentSize := 1);
    assert "" + v + [c] == data;
  }

  /** The size line of the last chunk, the trailers, and the return of the last line. */
  lemma LastPartIsTaken(r: Parser, size: string, extension: Extension, trailers: seq<Trailer>)
    requires r.state.ChunkSize? && r.chunkSizeStr == "" && SizeFits(size, 0) && ExtensionOk(extension)
    requires TrailersFit(trailers)
    ensures Run(r, size + (ExtensionText(extension) + "\r\n") + (TrailersText(trailers) + "\r"))
      == (Incompleted, r.(chunkSize := 0, state := ChunkSizeNewLine3))
  {
    hide Run, SizeFits, ExtensionOk, TrailerOk, TrailersText, ExtensionText;
    var t := r.(chunkSize := 0, state := ChunkSizeNewLine2);
    SizeLine(r, size, extension, 0);
    TrailersAreSkipped(t, trailers);
    One(t, '\r');
    Then(t, TrailersText(trailers), t, "\r");
    Then(r, size + (ExtensionText(extension) + "\r\n"), t, TrailersText(trailers) + "\r");
  }

  lemma ChunksAreTaken(q: Parser, chunks: seq<Chunk>, size: string, extension: Extension, trailers: seq<Trailer>)
    returns (v: string)
    requires q.state.ChunkSize? && q.chunkSize == 0 && q.chunkSizeStr == ""
    requires ChunksFit(chunks) && SizeFits(size, 0) && ExtensionOk(extension) && TrailersFit(trailers)
    ensures v + "\n" == ChunkedText(chunks, size, extension, trailers)
    ensures Run(q, v) == (Incompleted, Added(q, Data(chunks)).(state := ChunkSizeNewLine3))
  {
    hide Run, ChunkFits, SizeFits, ExtensionOk, TrailersFit, ChunksText, TrailersText, ExtensionText, Data;
    ChunksAreDecoded(q, chunks);
    var r := Run(q, ChunksText(chunks)).1;
    LastPartIsTaken(r, size, extension, trailers);
    var line, rest := size + (ExtensionText(extension) + "\r\n"), TrailersText(trailers) + "\r";
    Then(q, ChunksText(chunks), r, line + rest);
    v := ChunksText(chunks) + (line + rest);
    assert rest + "\n" == TrailersText(trailers) + "\r\n";
    assert v + "\n" == ChunksText(chunks) + (line + (rest + "\n"));
  }

  /** The body, behind a head that left the parser as q, up to its last character. */
  lemma BodyIsTaken(q: Parser, body: Body) returns (v: string, c: char, p: Parser)
    requires BodyOf(q, body) && q.contentSize < SIZE_RANGE && q.chunkSize == 0 && q.chunkSizeStr == ""
      && q.resp.content == ""
    ensures v + [c] == BodyText(body) && Run(q, v) == (Incompleted, p)
    ensures Step(p, c).0 == Completed && Step(p, c).1.resp == q.resp.(content := BodyData(body))
  {
    hide Run, Data, ChunkedText, SizeFits, ExtensionOk, ChunksFit, TrailersFit;
    if q.state.Post? {
      v, c, p := WholeIsTaken(q, body.data);
    } else {
      c := '\n';
      v := ChunksAreTaken(q, body.chunks, body.size, body.extension, body.trailers);
      p := Added(q, Data(body.chunks)).(state := ChunkSizeNewLine3);
      assert "" + Data(body.chunks) == Data(body.chunks);
    }
  }

  lemma FitsIsBodyOf(m: Message)
    requires MessageFits(m) && !m.body.NoBody?
    ensures BodyOf(AfterHead(m.status, m.lines), m.body)
    ensures Meaning(m) == AfterHead(m.status, m.lines).resp.(content := BodyData(m.body))
  {
    HeadMeans(m.status, m.lines);
    hide StatusFits, LinesFit, AfterHead, AsksForChunks, StaysAlive, Length, Folded, ChunkFits, TrailerOk, StrtolHex;
    hide BodyData, DecimalValue, CodeValue;
  }

  lemma BodyIsCompleted(m: Message)
    requires MessageFits(m) && !m.body.NoBody?
    ensures Completes(MessageText(m), Meaning(m))
  {
    var x, lines, head := m.status, m.lines, HeadSpelt(m.status, m.lines, m.feed);
    var q := AfterHead(x, lines);
    HeadMeans(x, lines);
    LengthInRange(AfterStatus(x), lines);
    FitsIsBodyOf(m);
    MessageJoins(m);
    assert q.resp.content == "" && (q.state.Post? ==> q.contentSize > 0);
    hide StatusFits, LinesFit, AfterHead, AfterLines, AfterStatus, BodyOf, HeadSpelt, BodyText, BodyData, MessageText;
    hide Meaning, Run, Step, Length, Folded, StaysAlive, AsksForChunks;
    HeadIsPassed(x, lines, m.feed);
    var v, c, p := BodyIsTaken(q, m.body);
    Then(NEW_PARSER, head, q, v);
    CompletesWith(head + v, c, p, Meaning(m));
    assert head + v + [c] == head + (v + [c]);
  }

  lemma MessageCompletes(m: Message)
    requires MessageFits(m)
    ensures Completes(MessageText(m), Meaning(m))
  {
    hide Completes, MessageFits, MessageText, Meaning;
    if m.body.NoBody? {
      NoBodyIsCompleted(m);
    } else {
      BodyIsCompleted(m);
    }
  }

  /**
   The texts with which the parser completes are exactly the messages of the grammar, and the response it then has is
   what the message means.
   */
  lemma CompletesExactly(text: string, resp: Response)
    ensures Completes(text, resp) <==> exists m :: MessageFits(m) && text == MessageText(m) && resp == Meaning(m)
  {
    hide Completes, MessageFits, MessageText, Meaning;
    if Completes(text, resp) {
      var m := CompletedIsMessage(text, resp);
    }
    if m :| MessageFits(m) && text == MessageText(m) && resp == Meaning(m) {
      MessageCompletes(m);
    }
  }
}
