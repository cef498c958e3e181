/** JSON text for flat objects of strings (RFC 8259, sections 4, 6 and 7): what `json.dumps` writes
    with ensure_ascii and compact separators, and how `json.loads` reads any text. Bytes are modelled as characters. */
module JsonText {
  import opened Wrappers
  import opened Text

  /** The longest integer that Python converts from text by default. */
  const MAX_INT_DIGITS := 4300

  /** Printable ASCII without the space: the alphabet of session tokens. */
  predicate IsVisible(c: char) {
    '!' <= c <= '~'
  }

  predicate Visible(s: string) {
    forall c | c in s :: IsVisible(c)
  }

  predicate NeedsEscape(c: char) {
    c == '"' || c == '\\'
  }

  function Escape(s: string): string {
    if s == "" then ""
    else (if NeedsEscape(s[0]) then ['\\', s[0]] else [s[0]]) + Escape(s[1..])
  }

  /** How many characters of `s` are written as two. */
  function Escapes(s: string): nat {
    if s == "" then 0 else (if NeedsEscape(s[0]) then 1 else 0) + Escapes(s[1..])
  }

  function Quote(s: string): string {
    ['"'] + Escape(s) + ['"']
  }

  datatype Member = Member(name: string, text: string)

  function DumpMember(m: Member): string {
    Quote(m.name) + [':'] + Quote(m.text)
  }

  function DumpMembers(members: seq<Member>): string {
    if members == [] then ""
    else if |members| == 1 then DumpMember(members[0])
    else DumpMember(members[0]) + [','] + DumpMembers(members[1..])
  }

  /** `json.dumps` of a dict of visible ASCII strings, its keys given in sorted order. */
  function Dump(members: seq<Member>): string {
    ['{'] + DumpMembers(members) + ['}']
  }

  lemma {:induction false} QuoteSize(s: string)
    ensures |Escape(s)| == |s| + Escapes(s)
    ensures Escapes(s) <= |s|
    ensures |Quote(s)| == |s| + Escapes(s) + 2
  {
    if s != "" {
      QuoteSize(s[1..]);
    }
  }

  predicate IsSpace(c: char) {
    c == ' ' || c == '\t' || c == '\n' || c == '\r'
  }

  function SkipSpace(s: string): (rest: string)
    ensures |rest| <= |s|
  {
    if s != "" && IsSpace(s[0]) then SkipSpace(s[1..]) else s
  }

  function HexValue(c: char): Option<nat> {
    if IsDigit(c) then Some(DigitValue(c))
    else if 'a' <= c <= 'f' then Some(c as nat - 'a' as nat + 10)
    else if 'A' <= c <= 'F' then Some(c as nat - 'A' as nat + 10)
    else None
  }

  /** The character of a \u escape. Every code above ASCII reads as U+0080, because no consumer of
      these texts accepts any of them. */
  function UnicodeEscape(h: string): Option<char>
    requires |h| == 4
  {
    match (HexValue(h[0]), HexValue(h[1]), HexValue(h[2]), HexValue(h[3]))
    case (Some(a), Some(b), Some(c), Some(d)) =>
      var code := ((a * 16 + b) * 16 + c) * 16 + d;
      if code < 128 then Some(code as char) else Some('\U{80}')
    case _ => None
  }

  function SimpleEscape(c: char): Option<char> {
    if c == '"' || c == '\\' || c == '/' then Some(c)
    else if c == 'b' then Some('\U{08}')
    else if c == 'f' then Some('\U{0C}')
    else if c == 'n' then Some('\n')
    else if c == 'r' then Some('\r')
    else if c == 't' then Some('\t')
    else None
  }

  /** A read that fails with a decode error, one that fails otherwise, and one that succeeds. */
  datatype Read<+T> = Bad | Crash | Good(value: T, rest: string)

  function Prepend(c: char, r: Read<string>): Read<string> {
    match r
    case Good(text, rest) => Good([c] + text, rest)
    case _ => r
  }

  /** Reads the rest of a string whose opening quote has been consumed. */
  function ReadString(s: string): (r: Read<string>)
    ensures r.Good? ==> |r.rest| < |s|
    ensures !r.Crash?
  {
    if s == "" || s[0] < ' ' then Bad
    else if s[0] == '"' then Good("", s[1..])
    else if s[0] != '\\' then Prepend(s[0], ReadString(s[1..]))
    else if |s| >= 6 && s[1] == 'u' then
      match UnicodeEscape(s[2..6])
      case None => Bad
      case Some(c) => Prepend(c, ReadString(s[6..]))
    else if |s| >= 2 && SimpleEscape(s[1]).Some? then Prepend(SimpleEscape(s[1]).value, ReadString(s[2..]))
    else Bad
  }

  /** The number of digits that the text starts with. */
  function Digits(s: string): (n: nat)
    ensures n <= |s|
  {
    if s != "" && IsDigit(s[0]) then 1 + Digits(s[1..]) else 0
  }

  /** The length of a fraction, a point and digits, that the text starts with. */
  function FractionLength(s: string): (n: nat)
    ensures n <= |s|
  {
    if s != "" && s[0] == '.' && Digits(s[1..]) > 0 then 1 + Digits(s[1..]) else 0
  }

  /** The length of an exponent that the text starts with. */
  function ExponentLength(s: string): (n: nat)
    ensures n <= |s|
  {
    if s == "" || (s[0] != 'e' && s[0] != 'E') then 0
    else
      var lead := if |s| > 1 && (s[1] == '+' || s[1] == '-') then 2 else 1;
      if Digits(s[lead..]) > 0 then lead + Digits(s[lead..]) else 0
  }

  /** Reads a number. An integer of too many digits is a ValueError that is no decode error. */
  function ReadNumber(s: string): (r: Read<Item>)
    ensures r.Good? ==> |r.rest| < |s|
  {
    var sign := if s != "" && s[0] == '-' then 1 else 0;
    var body := s[sign..];
    if Digits(body) == 0 then Bad
    else
      var whole := if body[0] == '0' then 1 else Digits(body);
      var fraction := FractionLength(body[whole..]);
      var exponent := ExponentLength(body[whole + fraction..]);
      if fraction + exponent == 0 && whole > MAX_INT_DIGITS then Crash
      else Good(NonText, body[whole + fraction + exponent..])
  }

  /** A member value: only texts matter to the consumers of these documents. */
  datatype Item = TextItem(text: string) | NonText

  datatype Field = Field(name: string, value: Item)

  predicate StartsWith(s: string, word: string) {
    word <= s
  }

  /** Reads a value. `limit` is the number of nested arrays and objects that the interpreter can still follow before
      it raises a RecursionError. */
  function ReadValue(s: string, limit: nat): (r: Read<Item>)
    ensures r.Good? ==> |r.rest| < |s|
    decreases |s|, 0
  {
    if s == "" then Bad
    else if s[0] == '"' then
      match ReadString(s[1..])
      case Good(text, rest) => Good(TextItem(text), rest)
      case _ => Bad
    else if s[0] == '{' then
      if limit == 0 then Crash
      else
        match ReadObject(s[1..], limit - 1)
        case Good(_, rest) => Good(NonText, rest)
        case Bad => Bad
        case Crash => Crash
    else if s[0] == '[' then
      if limit == 0 then Crash else ReadArray(s[1..], limit - 1)
    else if StartsWith(s, "null") || StartsWith(s, "true") then Good(NonText, s[4..])
    else if StartsWith(s, "false") then Good(NonText, s[5..])
    else if StartsWith(s, "NaN") then Good(NonText, s[3..])
    else if StartsWith(s, "Infinity") then Good(NonText, s[8..])
    else if StartsWith(s, "-Infinity") then Good(NonText, s[9..])
    else ReadNumber(s)
  }

  /** Reads the rest of an array whose opening bracket has been consumed. */
  function ReadArray(s: string, limit: nat): (r: Read<Item>)
    ensures r.Good? ==> |r.rest| < |s|
    decreases |s|, 2
  {
    var t := SkipSpace(s);
    if t != "" && t[0] == ']' then Good(NonText, t[1..]) else ReadElements(t, limit)
  }

  function ReadElements(s: string, limit: nat): (r: Read<Item>)
    ensures r.Good? ==> |r.rest| < |s|
    decreases |s|, 1
  {
    match ReadValue(s, limit)
    case Bad => Bad
    case Crash => Crash
    case Good(_, rest) =>
      var t := SkipSpace(rest);
      if t == "" then Bad
      else if t[0] == ']' then Good(NonText, t[1..])
      else if t[0] != ',' then Bad
      else ReadElements(SkipSpace(t[1..]), limit)
  }

  /** Reads the rest of an object whose opening brace has been consumed. */
  function ReadObject(s: string, limit: nat): (r: Read<seq<Field>>)
    ensures r.Good? ==> |r.rest| < |s|
    decreases |s|, 2
  {
    var t := SkipSpace(s);
    if t != "" && t[0] == '}' then Good([], t[1..]) else ReadFields(t, limit)
  }

  function ReadField(s: string, limit: nat): (r: Read<Field>)
    ensures r.Good? ==> |r.rest| < |s|
    decreases |s|, 0
  {
    if s == "" || s[0] != '"' then Bad
    else
      match ReadString(s[1..])
      case Bad => Bad
      case Crash => Crash
      case Good(name, rest) =>
        var t := SkipSpace(rest);
        if t == "" || t[0] != ':' then Bad
        else
          match ReadValue(SkipSpace(t[1..]), limit)
          case Bad => Bad
          case Crash => Crash
          case Good(value, after) => Good(Field(name, value), after)
  }

  /** Reads one or more members and the closing brace. */
  function ReadFields(s: string, limit: nat): (r: Read<seq<Field>>)
    ensures r.Good? ==> |r.rest| < |s|
    decreases |s|, 1
  {
    match ReadField(s, limit)
    case Bad => Bad
    case Crash => Crash
    case Good(f, rest) =>
      var t := SkipSpace(rest);
      if t == "" then Bad
      else if t[0] == '}' then Good([f], t[1..])
      else if t[0] != ',' then Bad
      else
        match ReadFields(SkipSpace(t[1..]), limit)
        case Bad => Bad
        case Crash => Crash
        case Good(fs, after) => Good([f] + fs, after)
  }

  /** What `json.loads` makes of a document: an object, anything else including a decode error, or another exception. */
  datatype Document = Object(fields: seq<Field>) | NoObject | Crashed

  /** `json.loads`, in an interpreter that can follow `limit` levels of nesting. */
  function Load(s: string, limit: nat): Document
  {
    var t := SkipSpace(s);
    if t != "" && t[0] == '{' && limit > 0 then
      match ReadObject(t[1..], limit - 1)
      case Bad => NoObject
      case Crash => Crashed
      case Good(fields, rest) => if SkipSpace(rest) == "" then Object(fields) else NoObject
    else if ReadValue(t, limit).Crash? then Crashed
    else NoObject
  }

  /** Python's dict semantics: the last member with a name wins. */
  function Lookup(fields: seq<Field>, name: string): Option<Item> {
    if fields == [] then None
    else
      match Lookup(fields[1..], name)
      case Some(value) => Some(value)
      case None => if fields[0].name == name then Some(fields[0].value) else None
  }

  /** The fields that written members are read as. */
  function FieldsOf(members: seq<Member>): (fields: seq<Field>)
    ensures |fields| == |members|
    ensures forall i | 0 <= i < |members| :: fields[i] == Field(members[i].name, TextItem(members[i].text))
  {
    seq(|members|, i requires 0 <= i < |members| => Field(members[i].name, TextItem(members[i].text)))
  }

  lemma ReadEnd(rest: string)
    ensures ReadString(['"'] + rest) == Good("", rest)
  {
    assert (['"'] + rest)[1..] == rest;
  }

  lemma ReadPlain(c: char, tail: string, text: string, rest: string)
    requires IsVisible(c) && !NeedsEscape(c) && ReadString(tail) == Good(text, rest)
    ensures ReadString([c] + tail) == Good([c] + text, rest)
  {
    assert ([c] + tail)[1..] == tail;
  }

  lemma ReadEscaped(c: char, tail: string, text: string, rest: string)
    requires NeedsEscape(c) && ReadString(tail) == Good(text, rest)
    ensures ReadString(['\\', c] + tail) == Good([c] + text, rest)
  {
    assert (['\\', c] + tail)[2..] == tail;
  }

  lemma {:induction false} ReadStringOfEscape(s: string, rest: string)
    requires Visible(s)
    ensures ReadString(Escape(s) + ['"'] + rest) == Good(s, rest)
  {
    hide ReadString;
    var all := Escape(s) + ['"'] + rest;
    if s == "" {
      assert all == ['"'] + rest;
      ReadEnd(rest);
    } else {
      ReadStringOfEscape(s[1..], rest);
      var tail := Escape(s[1..]) + ['"'] + rest;
      assert [s[0]] + s[1..] == s;
      assert s[0] in s;
      if NeedsEscape(s[0]) {
        assert all == ['\\', s[0]] + tail;
        ReadEscaped(s[0], tail, s[1..], rest);
      } else {
        assert all == [s[0]] + tail;
        ReadPlain(s[0], tail, s[1..], rest);
      }
    }
  }

  lemma ReadValueOfQuote(s: string, rest: string, limit: nat)
    requires Visible(s)
    ensures ReadValue(Quote(s) + rest, limit) == Good(TextItem(s), rest)
  {
    hide ReadString, Visible;
    var all := Quote(s) + rest;
    assert all[0] == '"' && all[1..] == Escape(s) + ['"'] + rest;
    ReadStringOfEscape(s, rest);
  }

  lemma ReadFieldOfDump(m: Member, rest: string, limit: nat)
    requires Visible(m.name) && Visible(m.text)
    ensures ReadField(DumpMember(m) + rest, limit) == Good(Field(m.name, TextItem(m.text)), rest)
  {
    hide ReadString, ReadValue, Escape, Visible;
    var s := DumpMember(m) + rest;
    var value := Quote(m.text) + rest;
    assert s[0] == '"' && s[1..] == Escape(m.name) + ['"'] + ([':'] + value);
    ReadStringOfEscape(m.name, [':'] + value);
    assert ([':'] + value)[1..] == value && SkipSpace([':'] + value) == [':'] + value && SkipSpace(value) == value;
    ReadValueOfQuote(m.text, rest, limit);
  }

  lemma ReadFieldsStep(s: string, f: Field, tail: string, fs: seq<Field>, limit: nat)
    requires ReadField(s, limit) == Good(f, [','] + tail)
    requires SkipSpace(tail) == tail && ReadFields(tail, limit) == Good(fs, "")
    ensures ReadFields(s, limit) == Good([f] + fs, "")
  {
    assert ([','] + tail)[1..] == tail;
  }

  lemma ReadFieldsEnd(s: string, f: Field, limit: nat)
    requires ReadField(s, limit) == Good(f, ['}'])
    ensures ReadFields(s, limit) == Good([f], "")
  {
  }

  lemma Regroup(a: string, b: string, c: string, d: string)
    ensures a + b + c + d == a + (b + (c + d))
  {
  }

  lemma DumpStartsWithQuote(members: seq<Member>)
    requires members != []
    ensures DumpMembers(members) != "" && DumpMembers(members)[0] == '"'
  {
    assert DumpMember(members[0])[0] == '"';
  }

  lemma NoSpace(s: string)
    requires s != "" && s[0] == '"'
    ensures SkipSpace(s) == s
  {
  }

  lemma FieldsOfFirst(members: seq<Member>)
    requires members != []
    ensures FieldsOf(members) == [Field(members[0].name, TextItem(members[0].text))] + FieldsOf(members[1..])
    ensures FieldsOf([]) == []
  {
  }

  lemma {:induction false} ReadFieldsOfDump(members: seq<Member>, text: string, limit: nat)
    requires members != []
    requires forall m | m in members :: Visible(m.name) && Visible(m.text)
    requires text == DumpMembers(members) + ['}']
    ensures ReadFields(text, limit) == Good(FieldsOf(members), "")
  {
    hide ReadField, ReadFields, Visible, DumpMember, SkipSpace;
    var m := members[0];
    var f := Field(m.name, TextItem(m.text));
    if |members| == 1 {
      ReadFieldOfDump(m, ['}'], limit);
      ReadFieldsEnd(text, f, limit);
      assert members[1..] == [] && [f] + [] == [f];
    } else {
      var tail := DumpMembers(members[1..]) + ['}'];
      Regroup(DumpMember(m), [','], DumpMembers(members[1..]), ['}']);
      ReadFieldOfDump(m, [','] + tail, limit);
      ReadFieldsOfDump(members[1..], tail, limit);
      assert SkipSpace(tail) == tail by { DumpStartsWithQuote(members[1..]); NoSpace(tail); }
      ReadFieldsStep(text, f, tail, FieldsOf(members[1..]), limit);
    }
    FieldsOfFirst(members);
  }

  /** Reading what was written gives the members back, wherever an object can be read at all. */
  lemma LoadOfDump(members: seq<Member>, limit: nat)
    requires members != [] && limit > 0
    requires forall m | m in members :: Visible(m.name) && Visible(m.text)
    ensures Load(Dump(members), limit) == Object(FieldsOf(members))
  {
    hide ReadFields, ReadValue, Visible, DumpMembers, SkipSpace;
    var s := Dump(members);
    var u := DumpMembers(members) + ['}'];
    DumpStartsWithQuote(members);
    ReadFieldsOfDump(members, u, limit - 1);
    NoSpace(u);
    assert s[0] == '{' && s[1..] == u;
    assert SkipSpace(s) == s && SkipSpace("") == "" by { Braces(s); }
    assert ReadObject(u, limit - 1) == Good(FieldsOf(members), "");
  }

  function Brackets(n: nat): (s: string)
    ensures |s| == n && forall i | 0 <= i < n :: s[i] == '['
  {
    seq(n, _ => '[')
  }

  /** Brackets nested one deeper than the interpreter can follow make the reader fail other than by a decode error. */
  lemma {:induction false} DeepTextCrashes(limit: nat)
    ensures ReadValue(Brackets(limit + 1), limit) == Crash
    ensures Load(Brackets(limit + 1), limit) == Crashed
  {
    var s := Brackets(limit + 1);
    assert SkipSpace(s) == s;
    if limit > 0 {
      DeepTextCrashes(limit - 1);
      var t := Brackets(limit);
      assert s[1..] == t && SkipSpace(t) == t;
      assert ReadElements(t, limit - 1) == Crash;
      assert ReadArray(t, limit - 1) == Crash;
    }
  }

  lemma Braces(s: string)
    requires s != "" && s[0] == '{'
    ensures SkipSpace(s) == s && SkipSpace("") == ""
  {
  }
}
