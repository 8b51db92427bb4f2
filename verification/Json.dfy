/**
 The JSON printer and parser. Objects are kept as entry lists in key order, as the map behind them is walked. Floats and
 exponents are not modelled; where the original computes one, throws, or runs off the end of the text, the parser here
 returns None. Other errors return what the original returns.
 */
module Json {
  import opened Options

  datatype Json =
    | Null
    | Boolean(b: bool)
    | Integral(n: int)
    | Str(s: string)
    | Array(items: seq<Json>)
    | Object(entries: seq<Entry>)

  datatype Entry = Entry(key: string, value: Json)

  const LONG_MAX: int := 0x7fff_ffff_ffff_ffff
  const LONG_MIN: int := -0x8000_0000_0000_0000

  const BACKSPACE := '\U{8}'
  const FORM_FEED := '\U{c}'
  const VERTICAL_TAB := '\U{b}'

  // ---------------------------------------------------------------- printing

  function EscapeChar(c: char): (r: string)
    ensures 1 <= |r| <= 2
  {
    if c == '\"' then "\\\""
    else if c == '\\' then "\\\\"
    else if c == BACKSPACE then "\\b"
    else if c == FORM_FEED then "\\f"
    else if c == '\n' then "\\n"
    else if c == '\r' then "\\r"
    else if c == '\t' then "\\t"
    else [c]
  }

  function Escape(s: string): string {
    if s == "" then "" else EscapeChar(s[0]) + Escape(s[1..])
  }

  function Digits(n: nat): (r: string)
    ensures r != "" && forall i :: 0 <= i < |r| ==> '0' <= r[i] <= '9'
  {
    if n < 10 then [Digit(n)] else Digits(n / 10) + [Digit(n % 10)]
  }

  function Digit(d: nat): (c: char)
    requires d < 10
    ensures '0' <= c <= '9' && c as int - '0' as int == d
  {
    ('0' as int + d) as char
  }

  function IntText(n: int): string {
    if n < 0 then "-" + Digits(-n) else Digits(n)
  }

  function Pad(depth: nat): string {
    if depth == 0 then "" else "  " + Pad(depth - 1)
  }

  function Width(v: Json): nat {
    match v case Array(items) => |items| case Object(entries) => |entries| case _ => 0
  }

  function Dump(v: Json, depth: nat): string
    decreases v, Width(v) + 1
  {
    match v
    case Null => "null"
    case Boolean(b) => if b then "true" else "false"
    case Integral(n) => IntText(n)
    case Str(s) => "\"" + (Escape(s) + "\"")
    case Array(items) => "[" + (DumpItems(v, 0, depth) + "]")
    case Object(entries) => "{\n" + (DumpEntries(v, 0, depth) + Closing(depth))
  }

  /** The end of an object; the padding of one level is taken off again. */
  function Closing(depth: nat): string {
    "\n" + Pad(if depth == 0 then 0 else depth - 1) + "}"
  }

  /** The items from number i on, separated by commas. */
  function DumpItems(v: Json, i: nat, depth: nat): string
    requires v.Array? && i <= |v.items|
    decreases v, |v.items| - i, 0
  {
    if i == |v.items| then "" else Dump(v.items[i], depth + 1) + MoreItems(v, i, depth)
  }

  function MoreItems(v: Json, i: nat, depth: nat): string
    requires v.Array? && i < |v.items|
    decreases v, |v.items| - i - 1, 1
  {
    if i + 1 == |v.items| then "" else ", " + DumpItems(v, i + 1, depth)
  }

  function Quoted(key: string): string {
    "\"" + (key + "\"")
  }

  function Member(v: Json, i: nat, depth: nat): string
    requires v.Object? && i < |v.entries|
    decreases v, |v.entries| - i - 1, 1
  {
    Quoted(v.entries[i].key) + (" : " + Dump(v.entries[i].value, depth + 1))
  }

  /** The members from number i on, one a line. */
  function DumpEntries(v: Json, i: nat, depth: nat): string
    requires v.Object? && i <= |v.entries|
    decreases v, |v.entries| - i, 0
  {
    if i == |v.entries| then "" else Pad(depth) + (Member(v, i, depth) + MoreEntries(v, i, depth))
  }

  function MoreEntries(v: Json, i: nat, depth: nat): string
    requires v.Object? && i < |v.entries|
    decreases v, |v.entries| - i - 1, 1
  {
    if i + 1 == |v.entries| then "" else ",\n" + DumpEntries(v, i + 1, depth)
  }

  // ---------------------------------------------------------------- objects as sorted entry lists

  predicate Less(a: string, b: string) {
    if b == "" then false
    else if a == "" then true
    else a[0] < b[0] || (a[0] == b[0] && Less(a[1..], b[1..]))
  }

  /** Assignment through the map's subscript. */
  function Assign(entries: seq<Entry>, key: string, value: Json): seq<Entry> {
    if entries == [] then [Entry(key, value)]
    else if entries[0].key == key then [Entry(key, value)] + entries[1..]
    else if Less(key, entries[0].key) then [Entry(key, value)] + entries
    else [entries[0]] + Assign(entries[1..], key, value)
  }

  predicate Sorted(entries: seq<Entry>) {
    forall i, j :: 0 <= i < j < |entries| ==> Less(entries[i].key, entries[j].key)
  }

  lemma {:induction false} LessIsStrict(a: string, b: string)
    ensures Less(a, b) ==> a != b && !Less(b, a)
  {
    if a != "" && b != "" && a[0] == b[0] {
      LessIsStrict(a[1..], b[1..]);
      assert a == [a[0]] + a[1..] && b == [b[0]] + b[1..];
    }
  }

  /** A key above all others goes to the end. */
  lemma {:induction false} AssignAppends(entries: seq<Entry>, key: string, value: Json)
    requires forall i :: 0 <= i < |entries| ==> Less(entries[i].key, key)
    ensures Assign(entries, key, value) == entries + [Entry(key, value)]
  {
    if entries != [] {
      LessIsStrict(entries[0].key, key);
      AssignAppends(entries[1..], key, value);
      assert entries == [entries[0]] + entries[1..];
    }
  }

  // ---------------------------------------------------------------- parsing

  /** Character access; one past the end there is a NUL. */
  function At(s: string, i: nat): char {
    if i < |s| then s[i] else '\0'
  }

  predicate IsSpace(c: char) {
    c == ' ' || c == '\t' || c == '\n' || c == '\r' || c == VERTICAL_TAB || c == FORM_FEED
  }

  predicate IsDigit(c: char) {
    '0' <= c <= '9'
  }

  predicate IsHex(c: char) {
    IsDigit(c) || 'a' <= c <= 'f' || 'A' <= c <= 'F'
  }

  /** What may follow a number. */
  predicate Delimits(c: char) {
    IsSpace(c) || c == ',' || c == ']' || c == '}'
  }

  function SkipSpace(s: string, i: nat): (r: nat)
    ensures r >= i && (i <= |s| ==> r <= |s|)
    decreases |s| - i
  {
    if IsSpace(At(s, i)) then SkipSpace(s, i + 1) else i
  }

  datatype Parsed<T> = Parsed(value: T, offset: nat)

  function Unescaped(c: char): Option<char> {
    if c == '\"' || c == '\\' || c == '/' then Some(c)
    else if c == 'b' then Some(BACKSPACE)
    else if c == 'f' then Some(FORM_FEED)
    else if c == 'n' then Some('\n')
    else if c == 'r' then Some('\r')
    else if c == 't' then Some('\t')
    else None
  }

  /** The rest of a string literal from offset i on. */
  function StringBody(s: string, i: nat, val: string): (r: Option<Parsed<string>>)
    ensures r.Some? ==> i < r.value.offset <= |s|
    decreases |s| - i
  {
    if i >= |s| then None
    else if s[i] == '\"' then Some(Parsed(val, i + 1))
    else if s[i] != '\\' then StringBody(s, i + 1, val + [s[i]])
    else if i + 1 >= |s| then None
    else if Unescaped(s[i + 1]).Some? then StringBody(s, i + 2, val + [Unescaped(s[i + 1]).value])
    else if s[i + 1] != 'u' then StringBody(s, i + 2, val + "\\")
    else if i + 5 < |s| && IsHex(s[i + 2]) && IsHex(s[i + 3]) && IsHex(s[i + 4]) && IsHex(s[i + 5])
    then StringBody(s, i + 6, val + "\\u" + s[i + 2..i + 6])
    else Some(Parsed("", i + 1))
  }

  predicate NumberChar(c: char) {
    c == '-' || IsDigit(c)
  }

  function NumberEnd(s: string, i: nat): (r: nat)
    ensures r >= i && (i <= |s| ==> r <= |s|)
    ensures forall j :: i <= j < r && j < |s| ==> NumberChar(s[j])
    decreases |s| - i
  {
    if NumberChar(At(s, i)) then NumberEnd(s, i + 1) else i
  }

  function DigitsEnd(s: string, i: nat): (r: nat)
    requires i <= |s|
    ensures i <= r <= |s|
    decreases |s| - i
  {
    if i < |s| && IsDigit(s[i]) then DigitsEnd(s, i + 1) else i
  }

  function DigitsValue(s: string): (n: int)
    ensures n >= 0
  {
    if s == "" then 0
    else 10 * DigitsValue(s[..|s| - 1]) + (if IsDigit(s[|s| - 1]) then s[|s| - 1] as int - '0' as int else 0)
  }

  /** std::stol: an optional sign and digits, the rest ignored; throws without digits or outside the range of long. */
  function Stol(s: string): Option<int> {
    var start := if s != "" && s[0] == '-' then 1 else 0;
    var end := DigitsEnd(s, start);
    var n := if start == 1 then -DigitsValue(s[start..end]) else DigitsValue(s[start..end]);
    if end == start || n < LONG_MIN || n > LONG_MAX then None else Some(n)
  }

  /** A number up to its delimiter. Without a delimiter the result is Null, and the offending character is skipped. */
  function Number(s: string, i: nat): (r: Option<Parsed<Json>>)
    requires i < |s| && NumberChar(s[i])
    ensures r.Some? ==> i < r.value.offset <= |s| + 1
  {
    var end := NumberEnd(s, i);
    var c := At(s, end);
    if c == '.' || c == 'e' || c == 'E' then None
    else if !Delimits(c) then Some(Parsed(Null, end + 1))
    else
      var n := Stol(s[i..end]);
      if n.Some? then Some(Parsed(Integral(n.value), end)) else None
  }

  predicate HasWord(s: string, i: nat, word: string) {
    i + |word| <= |s| && s[i..i + |word|] == word
  }

  /** The string that `ToString` gives, which is used as an object's key. */
  function ToString(v: Json): string {
    if v.Str? then Escape(v.s) else ""
  }

  function ParseNext(s: string, offset: nat): (r: Option<Parsed<Json>>)
    ensures r.Some? ==> offset <= r.value.offset
    decreases |s| - offset, 1
  {
    var i := SkipSpace(s, offset);
    if i >= |s| then Some(Parsed(Null, i))
    else if s[i] == '[' then ParseArray(s, i)
    else if s[i] == '{' then ParseObject(s, i)
    else if s[i] == '\"' then
      var body := StringBody(s, i + 1, "");
      if body.Some? then Some(Parsed(Str(body.value.value), body.value.offset)) else None
    else if s[i] == 't' || s[i] == 'f' then
      if HasWord(s, i, "true") then Some(Parsed(Boolean(true), i + 4))
      else if HasWord(s, i, "false") then Some(Parsed(Boolean(false), i + 5))
      else Some(Parsed(Null, i))
    else if s[i] == 'n' then Some(Parsed(Null, if HasWord(s, i, "null") then i + 4 else i))
    else if NumberChar(s[i]) then Number(s, i)
    else Some(Parsed(Null, i))
  }

  function ParseArray(s: string, offset: nat): (r: Option<Parsed<Json>>)
    requires offset < |s|
    ensures r.Some? ==> offset < r.value.offset
    decreases |s| - offset, 0
  {
    var j := SkipSpace(s, offset + 1);
    if At(s, j) == ']' then Some(Parsed(Array([]), j + 1)) else ParseItems(s, j, [])
  }

  function ParseObject(s: string, offset: nat): (r: Option<Parsed<Json>>)
    requires offset < |s|
    ensures r.Some? ==> offset < r.value.offset
    decreases |s| - offset, 0
  {
    var j := SkipSpace(s, offset + 1);
    if At(s, j) == '}' then Some(Parsed(Object([]), j + 1)) else ParseEntries(s, j, [])
  }

  /** Array elements from `offset` on, after those in `items`. */
  function ParseItems(s: string, offset: nat, items: seq<Json>): (r: Option<Parsed<Json>>)
    requires offset > 0
    ensures r.Some? ==> offset <= r.value.offset
    decreases |s| - offset, 2
  {
    var item := ParseNext(s, offset);
    if item.None? then None
    else
      var j := SkipSpace(s, item.value.offset);
      if At(s, j) == ',' then ParseItems(s, j + 1, items + [item.value.value])
      else if At(s, j) == ']' then Some(Parsed(Array(items + [item.value.value]), j + 1))
      else Some(Parsed(Array([]), j))
  }

  /** Object members from `offset` on, after those in `entries`. */
  function ParseEntries(s: string, offset: nat, entries: seq<Entry>): (r: Option<Parsed<Json>>)
    requires offset > 0
    ensures r.Some? ==> offset <= r.value.offset
    decreases |s| - offset, 2
  {
    var key := ParseNext(s, offset);
    if key.None? then None
    else
      var j := SkipSpace(s, key.value.offset);
      if At(s, j) != ':' then Some(Parsed(Object(entries), j))
      else
        var value := ParseNext(s, SkipSpace(s, j + 1));
        if value.None? then None
        else
          var entries' := Assign(entries, ToString(key.value.value), value.value.value);
          var k := SkipSpace(s, value.value.offset);
          if At(s, k) == ',' then ParseEntries(s, k + 1, entries')
          else Some(Parsed(Object(entries'), if At(s, k) == '}' then k + 1 else k))
  }

  function Load(s: string): Option<Json> {
    var r := ParseNext(s, 0);
    if r.Some? then Some(r.value.value) else None
  }

  // ---------------------------------------------------------------- the parser as loops over a shared offset

  method ConsumeWs(s: string, offset: nat) returns (r: nat)
    ensures r == SkipSpace(s, offset)
  {
    r := offset;
    while IsSpace(At(s, r))
      invariant r >= offset && SkipSpace(s, r) == SkipSpace(s, offset)
      decreases |s| - r
    {
      r := r + 1;
    }
  }

  method ReadStringBody(s: string, offset: nat) returns (r: Option<Parsed<string>>)
    ensures r == StringBody(s, offset, "")
  {
    var i, val := offset, "";
    while i < |s| && s[i] != '\"'
      invariant i >= offset && StringBody(s, i, val) == StringBody(s, offset, "")
      decreases |s| - i
    {
      if s[i] != '\\' {
        i, val := i + 1, val + [s[i]];
      } else if i + 1 >= |s| {
        return None;
      } else if Unescaped(s[i + 1]).Some? {
        i, val := i + 2, val + [Unescaped(s[i + 1]).value];
      } else if s[i + 1] != 'u' {
        i, val := i + 2, val + "\\";
      } else if i + 5 < |s| && IsHex(s[i + 2]) && IsHex(s[i + 3]) && IsHex(s[i + 4]) && IsHex(s[i + 5]) {
        i, val := i + 6, val + "\\u" + s[i + 2..i + 6];
      } else {
        return Some(Parsed("", i + 1));
      }
    }
    r := if i < |s| then Some(Parsed(val, i + 1)) else None;
  }

  method ReadNumber(s: string, offset: nat) returns (r: Option<Parsed<Json>>)
    requires offset < |s| && NumberChar(s[offset])
    ensures r == Number(s, offset)
  {
    var i := offset;
    while NumberChar(At(s, i))
      invariant offset <= i <= |s| && NumberEnd(s, i) == NumberEnd(s, offset)
      decreases |s| - i
    {
      i := i + 1;
    }
    var c := At(s, i);
    if c == '.' || c == 'e' || c == 'E' {
      return None;
    }
    if !Delimits(c) {
      return Some(Parsed(Null, i + 1));
    }
    var n := Stol(s[offset..i]);
    r := if n.Some? then Some(Parsed(Integral(n.value), i)) else None;
  }

  method ReadNext(s: string, offset: nat) returns (r: Option<Parsed<Json>>)
    ensures r == ParseNext(s, offset)
    decreases |s| - offset, 1
  {
    var i := ConsumeWs(s, offset);
    if i >= |s| {
      r := Some(Parsed(Null, i));
    } else if s[i] == '[' {
      r := ReadArray(s, i);
    } else if s[i] == '{' {
      r := ReadObject(s, i);
    } else if s[i] == '\"' {
      var body := ReadStringBody(s, i + 1);
      r := if body.Some? then Some(Parsed(Str(body.value.value), body.value.offset)) else None;
    } else if s[i] == 't' || s[i] == 'f' {
      r := if HasWord(s, i, "true") then Some(Parsed(Boolean(true), i + 4))
           else if HasWord(s, i, "false") then Some(Parsed(Boolean(false), i + 5))
           else Some(Parsed(Null, i));
    } else if s[i] == 'n' {
      r := Some(Parsed(Null, if HasWord(s, i, "null") then i + 4 else i));
    } else if NumberChar(s[i]) {
      r := ReadNumber(s, i);
    } else {
      r := Some(Parsed(Null, i));
    }
  }

  method ReadArray(s: string, offset: nat) returns (r: Option<Parsed<Json>>)
    requires offset < |s|
    ensures r == ParseArray(s, offset)
    decreases |s| - offset, 0
  {
    hide SkipSpace, IsSpace, ParseEntries, ParseNext;
    var j := ConsumeWs(s, offset + 1);
    if At(s, j) == ']' {
      return Some(Parsed(Array([]), j + 1));
    }
    var items := [];
    while true
      invariant j > offset && ParseItems(s, j, items) == ParseArray(s, offset)
      decreases |s| - j
    {
      var item := ReadNext(s, j);
      if item.None? {
        return None;
      }
      items := items + [item.value.value];
      j := ConsumeWs(s, item.value.offset);
      if At(s, j) == ',' {
        j := j + 1;
      } else if At(s, j) == ']' {
        return Some(Parsed(Array(items), j + 1));
      } else {
        return Some(Parsed(Array([]), j));
      }
    }
  }

  method ReadObject(s: string, offset: nat) returns (r: Option<Parsed<Json>>)
    requires offset < |s|
    ensures r == ParseObject(s, offset)
    decreases |s| - offset, 0
  {
    hide SkipSpace, IsSpace, ParseItems, ParseNext, Assign, ToString;
    var j := ConsumeWs(s, offset + 1);
    if At(s, j) == '}' {
      return Some(Parsed(Object([]), j + 1));
    }
    var entries := [];
    while true
      invariant j > offset && ParseEntries(s, j, entries) == ParseObject(s, offset)
      decreases |s| - j
    {
      var key := ReadNext(s, j);
      if key.None? {
        return None;
      }
      j := ConsumeWs(s, key.value.offset);
      if At(s, j) != ':' {
        return Some(Parsed(Object(entries), j));
      }
      j := ConsumeWs(s, j + 1);
      var value := ReadNext(s, j);
      if value.None? {
        return None;
      }
      entries := Assign(entries, ToString(key.value.value), value.value.value);
      j := ConsumeWs(s, value.value.offset);
      if At(s, j) == ',' {
        j := j + 1;
      } else {
        return Some(Parsed(Object(entries), if At(s, j) == '}' then j + 1 else j));
      }
    }
  }

  // ---------------------------------------------------------------- printing and parsing back

  /** Integers fit a long, and object keys are what `ToString` can give. */
  ghost predicate Printable(v: Json) {
    match v
    case Integral(n) => LONG_MIN <= n <= LONG_MAX
    case Array(items) => forall i :: 0 <= i < |items| ==> Printable(items[i])
    case Object(entries) =>
      Sorted(entries) && forall i :: 0 <= i < |entries| ==> IsEscaped(entries[i].key) && Printable(entries[i].value)
    case _ => true
  }

  ghost predicate IsEscaped(key: string) {
    exists t :: key == Escape(t)
  }

  lemma Split(s: string, i: nat, a: string, b: string)
    requires HasWord(s, i, a + b)
    ensures HasWord(s, i, a) && HasWord(s, i + |a|, b)
  {
    assert s[i..i + |a|] == (a + b)[..|a|];
    assert s[i + |a|..i + |a| + |b|] == (a + b)[|a|..];
  }

  lemma First(s: string, i: nat, w: string)
    requires HasWord(s, i, w) && w != ""
    ensures i < |s| && s[i] == w[0]
  {
    assert s[i..i + |w|][0] == w[0];
  }

  lemma {:induction false} SkipWord(s: string, i: nat, w: string)
    requires HasWord(s, i, w) && forall j :: 0 <= j < |w| ==> IsSpace(w[j])
    ensures SkipSpace(s, i) == SkipSpace(s, i + |w|)
    decreases |w|
  {
    if w != "" {
      First(s, i, w);
      Split(s, i, w[..1], w[1..]);
      assert w == w[..1] + w[1..];
      SkipWord(s, i + 1, w[1..]);
    }
  }

  lemma {:induction false} PadIsSpace(depth: nat)
    ensures forall j :: 0 <= j < |Pad(depth)| ==> IsSpace(Pad(depth)[j])
  {
    if depth > 0 {
      PadIsSpace(depth - 1);
    }
  }

  /** Parsing does not see the white space in front. */
  lemma SpaceInFront(s: string, i: nat, j: nat)
    requires SkipSpace(s, i) == SkipSpace(s, j)
    ensures ParseNext(s, i) == ParseNext(s, j)
  {
  }

  lemma NoSpace(s: string, i: nat)
    requires !IsSpace(At(s, i))
    ensures SkipSpace(s, i) == i
  {
  }

  lemma SplitLeft(s: string, i: nat, a: string, b: string, c: string)
    requires HasWord(s, i, (a + b) + c)
    ensures HasWord(s, i, a) && HasWord(s, i + |a|, b + c)
  {
    assert (a + b) + c == a + (b + c);
    Split(s, i, a, b + c);
  }

  lemma CharReadsBack(s: string, i: nat, c: char, val: string)
    requires HasWord(s, i, EscapeChar(c))
    ensures StringBody(s, i, val) == StringBody(s, i + |EscapeChar(c)|, val + [c])
  {
    var e := EscapeChar(c);
    First(s, i, e);
    if |e| == 2 {
      assert s[i..i + 2][1] == e[1];
      assert Unescaped(e[1]) == Some(c);
    }
  }

  lemma {:induction false} StringReadsBack(s: string, i: nat, t: string, val: string)
    requires HasWord(s, i, Escape(t) + "\"")
    ensures StringBody(s, i, val) == Some(Parsed(val + t, i + |Escape(t)| + 1))
    decreases |t|
  {
    hide HasWord, EscapeChar;
    if t == "" {
      assert Escape(t) + "\"" == "\"";
      First(s, i, "\"");
      assert val + t == val;
    } else {
      hide StringBody;
      SplitLeft(s, i, EscapeChar(t[0]), Escape(t[1..]), "\"");
      CharReadsBack(s, i, t[0], val);
      StringReadsBack(s, i + |EscapeChar(t[0])|, t[1..], val + [t[0]]);
      assert val + [t[0]] + t[1..] == val + t;
    }
  }

  lemma QuotedReadsBack(s: string, i: nat, t: string)
    requires HasWord(s, i, Quoted(Escape(t)))
    ensures ParseNext(s, i) == Some(Parsed(Str(t), i + |Quoted(Escape(t))|))
  {
    hide HasWord, Escape, StringBody, SkipSpace;
    var body := Escape(t) + "\"";
    Split(s, i, "\"", body);
    First(s, i, "\"");
    NoSpace(s, i);
    StringReadsBack(s, i + 1, t, "");
    assert "" + t == t;
  }

  // ---------------------------------------------------------------- strings however they are spelled

  /** A piece of a string literal: a character as it is, a letter behind a backslash, or a code of four digits. */
  datatype Piece = Plain(c: char) | Escaped(c: char) | Code(hex: string)

  const ESCAPES := "\"\\/bfnrt"
  const MEANINGS := ['\"', '\\', '/', BACKSPACE, FORM_FEED, '\n', '\r', '\t']
  const SPACES := [' ', '\t', '\n', VERTICAL_TAB, FORM_FEED, '\r']
  const HEX_DIGITS := "0123456789abcdefABCDEF"

  function Spelled(p: Piece): string {
    match p
    case Plain(c) => [c]
    case Escaped(c) => ['\\', c]
    case Code(hex) => "\\u" + hex
  }

  predicate WellSpelled(p: Piece) {
    match p
    case Plain(c) => c != '\"' && c != '\\'
    case Escaped(c) => c != 'u'
    case Code(hex) => |hex| == 4 && forall i :: 0 <= i < 4 ==> hex[i] in HEX_DIGITS
  }

  /** Codes are kept as they are spelled; of an unknown letter only the backslash is kept. */
  ghost predicate Means(p: Piece, t: string) {
    match p
    case Plain(c) => t == [c]
    case Escaped(c) =>
      if c in ESCAPES then exists k :: 0 <= k < |ESCAPES| && ESCAPES[k] == c && t == [MEANINGS[k]] else t == "\\"
    case Code(hex) => t == Spelled(p)
  }

  function SpellAll(pieces: seq<Piece>): string {
    if pieces == [] then "" else Spelled(pieces[0]) + SpellAll(pieces[1..])
  }

  function Join(texts: seq<string>): string {
    if texts == [] then "" else texts[0] + Join(texts[1..])
  }

  lemma LetterIsRead(c: char, t: string)
    requires Means(Escaped(c), t)
    ensures t == if Unescaped(c).Some? then [Unescaped(c).value] else "\\"
  {
    assert ESCAPES[0] == '\"' && ESCAPES[1] == '\\' && ESCAPES[2] == '/' && ESCAPES[3] == 'b';
    assert ESCAPES[4] == 'f' && ESCAPES[5] == 'n' && ESCAPES[6] == 'r' && ESCAPES[7] == 't';
  }

  lemma HexDigitIsHex(c: char)
    ensures IsHex(c) <==> c in HEX_DIGITS
  {
    if IsHex(c) {
      var d := if IsDigit(c) then c as int - '0' as int
          else if c >= 'a' then c as int - 'a' as int + 10 else c as int - 'A' as int + 16;
      assert HEX_DIGITS[d] == c;
    }
  }

  lemma CodeIsThere(s: string, i: nat, hex: string)
    requires HasWord(s, i, "\\u" + hex) && |hex| == 4
    ensures i + 5 < |s| && s[i] == '\\' && s[i + 1] == 'u' && s[i + 2..i + 6] == hex
    ensures s[i + 2] == hex[0] && s[i + 3] == hex[1] && s[i + 4] == hex[2] && s[i + 5] == hex[3]
  {
    Split(s, i, "\\u", hex);
    assert s[i..i + 2][0] == s[i] && s[i..i + 2][1] == s[i + 1];
    assert s[i + 2] == s[i + 2..i + 6][0] && s[i + 3] == s[i + 2..i + 6][1];
    assert s[i + 4] == s[i + 2..i + 6][2] && s[i + 5] == s[i + 2..i + 6][3];
  }

  lemma CodeIsRead(s: string, i: nat, hex: string, val: string)
    requires HasWord(s, i, "\\u" + hex) && WellSpelled(Code(hex))
    ensures StringBody(s, i, val) == StringBody(s, i + 6, val + ("\\u" + hex))
  {
    hide HasWord, IsHex;
    CodeIsThere(s, i, hex);
    HexDigitIsHex(hex[0]);
    HexDigitIsHex(hex[1]);
    HexDigitIsHex(hex[2]);
    HexDigitIsHex(hex[3]);
    assert val + "\\u" + hex == val + ("\\u" + hex);
  }

  lemma PieceIsRead(s: string, i: nat, p: Piece, rest: string, t: string, val: string)
    requires HasWord(s, i, Spelled(p) + (rest + "\"")) && WellSpelled(p) && Means(p, t)
    ensures StringBody(s, i, val) == StringBody(s, i + |Spelled(p)|, val + t)
  {
    Split(s, i, Spelled(p), rest + "\"");
    First(s, i, Spelled(p));
    match p
    case Plain(c) =>
    case Escaped(c) =>
      assert s[i..i + 2][1] == c;
      LetterIsRead(c, t);
    case Code(hex) => CodeIsRead(s, i, hex, val);
  }

  /** A string literal, however its characters are spelled, reads as what its pieces mean. */
  lemma {:induction false} SpelledStringIsRead(s: string, i: nat, pieces: seq<Piece>, texts: seq<string>, val: string)
    requires HasWord(s, i, SpellAll(pieces) + "\"") && |texts| == |pieces|
    requires forall k :: 0 <= k < |pieces| ==> WellSpelled(pieces[k]) && Means(pieces[k], texts[k])
    ensures StringBody(s, i, val) == Some(Parsed(val + Join(texts), i + |SpellAll(pieces)| + 1))
    decreases |pieces|
  {
    hide HasWord, Spelled, WellSpelled, Means;
    if pieces == [] {
      assert SpellAll(pieces) + "\"" == "\"";
      First(s, i, "\"");
      assert val + Join(texts) == val;
    } else {
      hide StringBody;
      var p, t, rest := pieces[0], texts[0], SpellAll(pieces[1..]);
      SplitLeft(s, i, Spelled(p), rest, "\"");
      assert Spelled(p) + rest + "\"" == Spelled(p) + (rest + "\"");
      PieceIsRead(s, i, p, rest, t, val);
      SpelledStringIsRead(s, i + |Spelled(p)|, pieces[1..], texts[1..], val + t);
      assert val + t + Join(texts[1..]) == val + Join(texts);
    }
  }

  lemma SpaceIsOneOf(c: char)
    ensures IsSpace(c) <==> c in SPACES
  {
    assert SPACES[0] == ' ' && SPACES[1] == '\t' && SPACES[2] == '\n' && SPACES[3] == VERTICAL_TAB;
    assert SPACES[4] == FORM_FEED && SPACES[5] == '\r';
  }

  /** Any mix of the six kinds of white space in front of a value makes no difference. */
  lemma SpacesAreSkipped(s: string, i: nat, w: string)
    requires HasWord(s, i, w) && forall j :: 0 <= j < |w| ==> w[j] in SPACES
    ensures ParseNext(s, i) == ParseNext(s, i + |w|)
  {
    hide ParseNext, SkipSpace, HasWord, IsSpace;
    forall j | 0 <= j < |w| ensures IsSpace(w[j]) {
      SpaceIsOneOf(w[j]);
    }
    SkipWord(s, i, w);
    SpaceInFront(s, i, i + |w|);
  }

  /** A string value behind white space, however it is spelled, is read as what its pieces mean. */
  lemma SpelledValueIsRead(s: string, i: nat, w: string, pieces: seq<Piece>, texts: seq<string>)
    requires HasWord(s, i, w + ("\"" + (SpellAll(pieces) + "\""))) && |texts| == |pieces|
    requires forall j :: 0 <= j < |w| ==> w[j] in SPACES
    requires forall k :: 0 <= k < |pieces| ==> WellSpelled(pieces[k]) && Means(pieces[k], texts[k])
    ensures ParseNext(s, i) == Some(Parsed(Str(Join(texts)), i + |w| + |SpellAll(pieces)| + 2))
  {
    hide HasWord, SpellAll, StringBody, SkipSpace, WellSpelled, Means;
    var body := SpellAll(pieces) + "\"";
    Split(s, i, w, "\"" + body);
    SpacesAreSkipped(s, i, w);
    Split(s, i + |w|, "\"", body);
    First(s, i + |w|, "\"");
    NoSpace(s, i + |w|);
    SpelledStringIsRead(s, i + |w| + 1, pieces, texts, "");
    assert "" + Join(texts) == Join(texts);
  }

  // ---------------------------------------------------------------- numbers

  lemma {:induction false} DigitsReadBack(n: nat)
    ensures DigitsValue(Digits(n)) == n
  {
    if n >= 10 {
      var d := Digits(n);
      assert d[..|d| - 1] == Digits(n / 10);
      DigitsReadBack(n / 10);
    } else {
      assert Digits(n)[..0] == "";
    }
  }

  lemma {:induction false} DigitsGoToTheEnd(s: string, i: nat)
    requires i <= |s| && forall j :: i <= j < |s| ==> IsDigit(s[j])
    ensures DigitsEnd(s, i) == |s|
    decreases |s| - i
  {
    if i < |s| {
      DigitsGoToTheEnd(s, i + 1);
    }
  }

  lemma StolReadsBack(n: int)
    requires LONG_MIN <= n <= LONG_MAX
    ensures Stol(IntText(n)) == Some(n)
    ensures IntText(n) != "" && forall j :: 0 <= j < |IntText(n)| ==> NumberChar(IntText(n)[j])
  {
    hide Digits, DigitsValue, DigitsEnd;
    var m := if n < 0 then -n else n;
    var w, start := IntText(n), if n < 0 then 1 else 0;
    DigitsReadBack(m);
    assert w[start..] == Digits(m);
    DigitsGoToTheEnd(w, start);
    assert w[start..|w|] == Digits(m);
  }

  lemma {:induction false} NumberGoesToTheEnd(s: string, i: nat, w: string)
    requires HasWord(s, i, w) && (forall j :: 0 <= j < |w| ==> NumberChar(w[j])) && !NumberChar(At(s, i + |w|))
    ensures NumberEnd(s, i) == i + |w|
    decreases |w|
  {
    if w != "" {
      First(s, i, w);
      Split(s, i, w[..1], w[1..]);
      assert w == w[..1] + w[1..];
      NumberGoesToTheEnd(s, i + 1, w[1..]);
    }
  }

  /** A printed number is read back exactly if a delimiter follows it. */
  lemma NumberReadsBack(s: string, i: nat, n: int)
    requires LONG_MIN <= n <= LONG_MAX && HasWord(s, i, IntText(n))
    requires !NumberChar(At(s, i + |IntText(n)|)) && At(s, i + |IntText(n)|) != '.'
    requires At(s, i + |IntText(n)|) != 'e' && At(s, i + |IntText(n)|) != 'E'
    ensures ParseNext(s, i) == Some(Parsed(Integral(n), i + |IntText(n)|)) <==> Delimits(At(s, i + |IntText(n)|))
  {
    StolReadsBack(n);
    First(s, i, IntText(n));
    NumberGoesToTheEnd(s, i, IntText(n));
    assert SkipSpace(s, i) == i;
  }

  // ---------------------------------------------------------------- trees

  /** What a printed value can start with. */
  lemma FirstOfDump(v: Json, depth: nat)
    ensures Dump(v, depth) != "" && !IsSpace(Dump(v, depth)[0]) && Dump(v, depth)[0] != ']' && Dump(v, depth)[0] != '}'
  {
  }

  lemma {:induction false} DumpReadsBack(s: string, i: nat, v: Json, depth: nat)
    requires HasWord(s, i, Dump(v, depth)) && Printable(v)
    requires v.Integral? ==> Delimits(At(s, i + |Dump(v, depth)|))
    ensures ParseNext(s, i) == Some(Parsed(v, i + |Dump(v, depth)|))
    decreases v, Width(v) + 1
  {
    hide HasWord, SkipSpace, StringBody, Number, IntText, Escape, DumpItems, DumpEntries, ParseArray, ParseObject,
      Closing;
    FirstOfDump(v, depth);
    First(s, i, Dump(v, depth));
    NoSpace(s, i);
    match v
    case Null =>
    case Boolean(_) => NotBoth(s, i);
    case Integral(n) => NumberReadsBack(s, i, n);
    case Str(t) => QuotedReadsBack(s, i, t);
    case Array(_) => ArrayReadsBack(s, i, v, depth);
    case Object(_) => ObjectReadsBack(s, i, v, depth);
  }

  lemma NotBoth(s: string, i: nat)
    ensures !(HasWord(s, i, "true") && HasWord(s, i, "false"))
  {
    if HasWord(s, i, "true") && HasWord(s, i, "false") {
      First(s, i, "true");
      First(s, i, "false");
    }
  }

  lemma {:induction false} ArrayReadsBack(s: string, i: nat, v: Json, depth: nat)
    requires v.Array? && HasWord(s, i, Dump(v, depth)) && Printable(v)
    ensures i < |s| && ParseArray(s, i) == Some(Parsed(v, i + |Dump(v, depth)|))
    decreases v, Width(v), 1
  {
    hide HasWord, SkipSpace, ParseItems, MoreItems;
    var rest := DumpItems(v, 0, depth) + "]";
    Split(s, i, "[", rest);
    First(s, i, "[");
    First(s, i + 1, rest);
    if v.items == [] {
      NoSpace(s, i + 1);
    } else {
      FirstOfDump(v.items[0], depth + 1);
      NoSpace(s, i + 1);
      assert v.items[..0] == [];
      ItemsReadBack(s, i + 1, i + 1, v, 0, depth);
    }
  }

  lemma SpaceIsSpace()
    ensures IsSpace(' ') && IsSpace('\n')
  {
  }

  /** After an item comes a comma or the closing bracket. */
  lemma AfterItem(s: string, e: nat, v: Json, k: nat, depth: nat)
    requires v.Array? && k < |v.items| && HasWord(s, e, MoreItems(v, k, depth) + "]")
    ensures Delimits(At(s, e)) && SkipSpace(s, e) == e && At(s, e) == if k + 1 < |v.items| then ',' else ']'
  {
    hide HasWord, DumpItems;
    First(s, e, MoreItems(v, k, depth) + "]");
  }

  lemma {:induction false} ItemsReadBack(s: string, j: nat, i: nat, v: Json, k: nat, depth: nat)
    requires v.Array? && k < |v.items| && Printable(v) && j > 0
    requires HasWord(s, i, DumpItems(v, k, depth) + "]") && SkipSpace(s, j) == SkipSpace(s, i)
    ensures ParseItems(s, j, v.items[..k]) == Some(Parsed(v, i + |DumpItems(v, k, depth)| + 1))
    decreases v, |v.items| - k, 0
  {
    hide HasWord, SkipSpace, ParseNext, Dump, IsSpace, Delimits, At;
    var d := Dump(v.items[k], depth + 1);
    var more := MoreItems(v, k, depth);
    SplitLeft(s, i, d, more, "]");
    AfterItem(s, i + |d|, v, k, depth);
    DumpReadsBack(s, i, v.items[k], depth + 1);
    SpaceInFront(s, j, i);
    assert v.items[..k] + [v.items[k]] == v.items[..k + 1];
    if k + 1 == |v.items| {
      assert v.items[..k + 1] == v.items;
    } else {
      SplitLeft(s, i + |d|, ", ", DumpItems(v, k + 1, depth), "]");
      Split(s, i + |d|, ",", " ");
      SpaceIsSpace();
      SkipWord(s, i + |d| + 1, " ");
      ItemsReadBack(s, i + |d| + 1, i + |d| + 2, v, k + 1, depth);
    }
  }

  lemma ClosingEnds(s: string, i: nat, depth: nat)
    requires HasWord(s, i, Closing(depth))
    ensures At(s, SkipSpace(s, i)) == '}' && SkipSpace(s, i) + 1 == i + |Closing(depth)|
  {
    hide HasWord, SkipSpace;
    var n := if depth == 0 then 0 else depth - 1;
    PadIsSpace(n);
    Split(s, i, "\n" + Pad(n), "}");
    First(s, i + 1 + |Pad(n)|, "}");
    SkipWord(s, i, "\n" + Pad(n));
    NoSpace(s, i + 1 + |Pad(n)|);
  }

  lemma {:induction false} ObjectReadsBack(s: string, i: nat, v: Json, depth: nat)
    requires v.Object? && HasWord(s, i, Dump(v, depth)) && Printable(v)
    ensures i < |s| && ParseObject(s, i) == Some(Parsed(v, i + |Dump(v, depth)|))
    decreases v, Width(v), 1
  {
    hide HasWord, SkipSpace, ParseEntries, Closing, Member, MoreEntries;
    var body := DumpEntries(v, 0, depth) + Closing(depth);
    Split(s, i, "{\n", body);
    Split(s, i, "{", "\n");
    First(s, i, "{");
    SkipWord(s, i + 1, "\n");
    if v.entries == [] {
      assert body == Closing(depth);
      ClosingEnds(s, i + 2, depth);
    } else {
      var q := EntryStart(s, i + 2, v, 0, depth);
      assert v.entries[..0] == [];
      EntriesReadBack(s, SkipSpace(s, i + 1), i + 2, v, 0, depth);
    }
  }

  /** A member starts with its padding and a quote. */
  lemma EntryStart(s: string, i: nat, v: Json, k: nat, depth: nat) returns (q: nat)
    requires v.Object? && k < |v.entries| && HasWord(s, i, DumpEntries(v, k, depth) + Closing(depth))
    ensures q == i + |Pad(depth)| == SkipSpace(s, i) && At(s, q) == '\"' && SkipSpace(s, q) == q
    ensures HasWord(s, q, Member(v, k, depth))
      && HasWord(s, q + |Member(v, k, depth)|, MoreEntries(v, k, depth) + Closing(depth))
  {
    hide HasWord, SkipSpace, MoreEntries, Dump, Closing, Pad;
    var m := Member(v, k, depth);
    q := i + |Pad(depth)|;
    SplitLeft(s, i, Pad(depth), m + MoreEntries(v, k, depth), Closing(depth));
    SplitLeft(s, q, m, MoreEntries(v, k, depth), Closing(depth));
    First(s, q, m);
    PadIsSpace(depth);
    SkipWord(s, i, Pad(depth));
    NoSpace(s, q);
  }

  lemma KeyReadsBack(s: string, q: nat, key: string)
    requires IsEscaped(key) && HasWord(s, q, Quoted(key))
    ensures ParseNext(s, q).Some? && ToString(ParseNext(s, q).value.value) == key
    ensures ParseNext(s, q).value.offset == q + |Quoted(key)|
  {
    hide HasWord, ParseNext, Quoted, Escape;
    var t :| key == Escape(t);
    QuotedReadsBack(s, q, t);
  }

  lemma ColonReadsBack(s: string, j: nat)
    requires HasWord(s, j, " : ")
    ensures At(s, SkipSpace(s, j)) == ':' && SkipSpace(s, j) == j + 1
    ensures SkipSpace(s, SkipSpace(s, j + 2)) == SkipSpace(s, j + 3)
  {
    assert s[j..j + 3][0] == ' ' && s[j..j + 3][1] == ':' && s[j..j + 3][2] == ' ';
    SkipTwice(s, j + 3);
  }

  lemma {:induction false} SkipTwice(s: string, i: nat)
    ensures SkipSpace(s, SkipSpace(s, i)) == SkipSpace(s, i)
    decreases |s| - i
  {
    if IsSpace(At(s, i)) {
      SkipTwice(s, i + 1);
    }
  }

  /** The key, the colon and the value of a member. */
  lemma {:induction false} MemberReadsBack(s: string, j: nat, q: nat, v: Json, k: nat, depth: nat)
    requires v.Object? && k < |v.entries| && Printable(v)
    requires HasWord(s, q, Member(v, k, depth)) && SkipSpace(s, j) == SkipSpace(s, q)
    requires Delimits(At(s, q + |Member(v, k, depth)|))
    ensures
      var key := ParseNext(s, j);
      && key.Some? && ToString(key.value.value) == v.entries[k].key
      && var colon := SkipSpace(s, key.value.offset);
      && At(s, colon) == ':'
      && ParseNext(s, SkipSpace(s, colon + 1)) == Some(Parsed(v.entries[k].value, q + |Member(v, k, depth)|))
    decreases v, |v.entries| - k - 1, 2
  {
    hide HasWord, SkipSpace, ParseNext, Dump, Quoted, Sorted;
    var key, value := v.entries[k].key, v.entries[k].value;
    var p := q + |Quoted(key)|;
    Split(s, q, Quoted(key), " : " + Dump(value, depth + 1));
    Split(s, p, " : ", Dump(value, depth + 1));
    KeyReadsBack(s, q, key);
    SpaceInFront(s, j, q);
    ColonReadsBack(s, p);
    DumpReadsBack(s, p + 3, value, depth + 1);
    SpaceInFront(s, SkipSpace(s, p + 2), p + 3);
  }

  lemma AssignNext(entries: seq<Entry>, k: nat)
    requires Sorted(entries) && k < |entries|
    ensures Assign(entries[..k], entries[k].key, entries[k].value) == entries[..k + 1]
  {
    AssignAppends(entries[..k], entries[k].key, entries[k].value);
  }

  lemma {:induction false} MemberIsParsed(s: string, j: nat, q: nat, v: Json, k: nat, depth: nat)
    requires v.Object? && k < |v.entries| && Printable(v) && j > 0
    requires HasWord(s, q, Member(v, k, depth)) && SkipSpace(s, j) == SkipSpace(s, q)
    requires Delimits(At(s, q + |Member(v, k, depth)|))
    ensures
      var c := SkipSpace(s, q + |Member(v, k, depth)|);
      ParseEntries(s, j, v.entries[..k]) ==
      if At(s, c) == ',' then ParseEntries(s, c + 1, v.entries[..k + 1])
      else Some(Parsed(Object(v.entries[..k + 1]), if At(s, c) == '}' then c + 1 else c))
    decreases v, |v.entries| - k - 1, 3
  {
    hide HasWord, SkipSpace, ParseNext, Member, Assign, ToString, Delimits, At;
    MemberReadsBack(s, j, q, v, k, depth);
    AssignNext(v.entries, k);
    hide Printable, Sorted;
  }

  lemma {:induction false} EntriesReadBack(s: string, j: nat, i: nat, v: Json, k: nat, depth: nat)
    requires v.Object? && k < |v.entries| && Printable(v) && j > 0
    requires HasWord(s, i, DumpEntries(v, k, depth) + Closing(depth)) && SkipSpace(s, j) == SkipSpace(s, i)
    ensures ParseEntries(s, j, v.entries[..k]) == Some(Parsed(v, i + |DumpEntries(v, k, depth)| + |Closing(depth)|))
    decreases v, |v.entries| - k, 0
  {
    hide HasWord, SkipSpace, ParseEntries, Member, Closing, Printable, Pad, IsSpace, Delimits, At, Dump;
    var q := EntryStart(s, i, v, k, depth);
    var e := q + |Member(v, k, depth)|;
    AfterMember(s, e, v, k, depth);
    MemberIsParsed(s, j, q, v, k, depth);
    if k + 1 == |v.entries| {
      assert MoreEntries(v, k, depth) + Closing(depth) == Closing(depth);
      ClosingEnds(s, e, depth);
      assert v.entries[..k + 1] == v.entries;
    } else {
      SpaceIsSpace();
      SplitLeft(s, e, ",\n", DumpEntries(v, k + 1, depth), Closing(depth));
      Split(s, e, ",", "\n");
      SkipWord(s, e + 1, "\n");
      EntriesReadBack(s, e + 1, e + 2, v, k + 1, depth);
    }
  }

  /** After a member comes a comma, or the line end before the closing brace. */
  lemma AfterMember(s: string, e: nat, v: Json, k: nat, depth: nat)
    requires v.Object? && k < |v.entries| && HasWord(s, e, MoreEntries(v, k, depth) + Closing(depth))
    ensures Delimits(At(s, e)) && (k + 1 < |v.entries| ==> At(s, e) == ',' && SkipSpace(s, e) == e)
  {
    hide HasWord, DumpEntries;
    First(s, e, MoreEntries(v, k, depth) + Closing(depth));
  }

  lemma InTheMiddle(before: string, w: string, after: string)
    ensures HasWord(before + w + after, |before|, w) && At(before + w + after, |before| + |w|) == At(after, 0)
  {
    assert (before + w + after)[|before|..|before| + |w|] == w;
  }

  /** Printing and parsing gives the tree back and stops at its end, inside any text, if numbers are delimited. */
  lemma RoundTrip(before: string, v: Json, depth: nat, after: string)
    requires Printable(v) && (v.Integral? ==> Delimits(At(after, 0)))
    ensures ParseNext(before + Dump(v, depth) + after, |before|) == Some(Parsed(v, |before| + |Dump(v, depth)|))
  {
    hide Dump, ParseNext, Printable;
    InTheMiddle(before, Dump(v, depth), after);
    DumpReadsBack(before + Dump(v, depth) + after, |before|, v, depth);
  }

  /** A whole document reads back unless it is a bare number, which lacks the delimiter and reads as Null. */
  lemma LoadOfDump(v: Json)
    requires Printable(v)
    ensures Load(Dump(v, 1)) == Some(v) <==> !v.Integral?
    ensures v.Integral? ==> Load(Dump(v, 1)) == Some(Null)
  {
    InTheMiddle("", Dump(v, 1), "");
    assert "" + Dump(v, 1) + "" == Dump(v, 1);
    if v.Integral? {
      BareNumber(v.n);
    } else {
      hide Dump, ParseNext, Printable;
      RoundTrip("", v, 1, "");
    }
  }

  lemma BareNumber(n: int)
    requires LONG_MIN <= n <= LONG_MAX
    ensures Load(IntText(n)) == Some(Null)
  {
    hide IntText, Stol, SkipSpace, NumberEnd, ParseArray, ParseObject, StringBody;
    var w := IntText(n);
    StolReadsBack(n);
    assert w[0..|w|] == w;
    NumberGoesToTheEnd(w, 0, w);
    NoSpace(w, 0);
  }
}
