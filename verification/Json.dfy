/** JSON texts (RFC 8259) as `json.loads` reads them, and the compact form in which `json.dumps` writes integers, plain
    strings and null. */
module Json {
  import opened Wrappers

  /** A number with a fraction or an exponent is kept as text; True is an integer to Python, so booleans stay apart. */
  datatype Value =
    | Null
    | Bool(b: bool)
    | Int(n: int)
    | Float(text: string)
    | String(s: string)
    | Array(items: seq<Value>)
    | Object(members: map<string, Value>)

  datatype Parsed<T> = Bad | Good(value: T, rest: string)

  // ----- lexical parts -----

  predicate IsSpace(c: char) {
    c == ' ' || c == '\t' || c == '\n' || c == '\r'
  }

  function Skip(s: string): (r: string)
    ensures |r| <= |s|
    ensures s != "" && !IsSpace(s[0]) ==> r == s
  {
    if s != "" && IsSpace(s[0]) then Skip(s[1..]) else s
  }

  predicate IsDigit(c: char) {
    '0' <= c <= '9'
  }

  /** The longest run of digits at the front. */
  function Digits(s: string): (d: string)
    ensures |d| <= |s| && d == s[..|d|]
    ensures forall i :: 0 <= i < |d| ==> IsDigit(d[i])
  {
    if s != "" && IsDigit(s[0]) then [s[0]] + Digits(s[1..]) else ""
  }

  function DigitValue(c: char): (v: nat)
    requires IsDigit(c)
    ensures v < 10
  {
    c as int - '0' as int
  }

  function Number(d: string): nat
    requires forall i :: 0 <= i < |d| ==> IsDigit(d[i])
  {
    if d == "" then 0 else 10 * Number(d[..|d| - 1]) + DigitValue(d[|d| - 1])
  }

  /** A fraction and an exponent, as far as they are there: how many characters they take. */
  function FractionLength(s: string): (n: nat)
    ensures n <= |s|
  {
    if s != "" && s[0] == '.' && Digits(s[1..]) != "" then 1 + |Digits(s[1..])| else 0
  }

  function ExponentLength(s: string): (n: nat)
    ensures n <= |s|
  {
    if s == "" || (s[0] != 'e' && s[0] != 'E') then 0
    else
      var sign := if |s| > 1 && (s[1] == '+' || s[1] == '-') then 1 else 0;
      var d := Digits(s[1 + sign..]);
      if d == "" then 0 else 1 + sign + |d|
  }

  /** A number whose sign and digits have been read, a leading zero standing alone; the rest may go on with a
      fraction. */
  function NumberFrom(front: string, negative: bool, whole: string, tail: string): (r: Parsed<Value>)
    requires forall i :: 0 <= i < |whole| ==> IsDigit(whole[i])
    ensures r.Good? ==> |r.rest| <= |tail|
  {
    var fraction := FractionLength(tail);
    var more := fraction + ExponentLength(tail[fraction..]);
    if more > 0 then Good(Float(front + tail[..more]), tail[more..])
    else Good(Int(if negative then 0 - Number(whole) else Number(whole)), tail)
  }

  function ParseNumber(s: string): (r: Parsed<Value>)
    ensures r.Good? ==> |r.rest| < |s|
  {
    var sign := if s != "" && s[0] == '-' then 1 else 0;
    var run := Digits(s[sign..]);
    if run == "" then Bad
    else
      var whole := if run[0] == '0' then run[..1] else run;
      NumberFrom(s[..sign + |whole|], sign == 1, whole, s[sign + |whole|..])
  }

  function HexValue(c: char): Option<nat> {
    if '0' <= c <= '9' then Some(c as int - '0' as int)
    else if 'a' <= c <= 'f' then Some(c as int - 'a' as int + 10)
    else if 'A' <= c <= 'F' then Some(c as int - 'A' as int + 10)
    else None
  }

  /** The character of a `\u` escape; a half of a surrogate pair has no character of its own. */
  function Unescaped(code: nat): char
    requires code < 0x1_0000
  {
    if 0xD800 <= code < 0xE000 then 0xFFFD as char else code as char
  }

  /** The rest of a string after its opening quote. Control characters are not allowed. */
  function ParseText(s: string): (r: Parsed<string>)
    ensures r.Good? ==> |r.rest| < |s|
  {
    if s == "" || s[0] < ' ' then Bad
    else if s[0] == '"' then Good("", s[1..])
    else if s[0] != '\\' then Prepend(s[0], ParseText(s[1..]))
    else if |s| < 2 then Bad
    else if s[1] == 'u' then
      if |s| < 6 then Bad
      else
        var (a, b, c, d) := (HexValue(s[2]), HexValue(s[3]), HexValue(s[4]), HexValue(s[5]));
        if a.None? || b.None? || c.None? || d.None? then Bad
        else
          var code := a.value * 0x1000 + b.value * 0x100 + c.value * 0x10 + d.value;
          if code < 0x1_0000 then Prepend(Unescaped(code), ParseText(s[6..])) else Bad
    else
      match s[1]
      case '"' => Prepend('"', ParseText(s[2..]))
      case '\\' => Prepend('\\', ParseText(s[2..]))
      case '/' => Prepend('/', ParseText(s[2..]))
      case 'b' => Prepend(8 as char, ParseText(s[2..]))
      case 'f' => Prepend(12 as char, ParseText(s[2..]))
      case 'n' => Prepend('\n', ParseText(s[2..]))
      case 'r' => Prepend('\r', ParseText(s[2..]))
      case 't' => Prepend('\t', ParseText(s[2..]))
      case _ => Bad
  }

  function Prepend(c: char, r: Parsed<string>): (q: Parsed<string>)
    ensures q.Good? <==> r.Good?
    ensures q.Good? ==> q.value == [c] + r.value && q.rest == r.rest
  {
    match r
    case Bad => Bad
    case Good(value, rest) => Good([c] + value, rest)
  }

  // ----- values -----

  function ParseValue(s: string): (r: Parsed<Value>)
    ensures r.Good? ==> |r.rest| < |s|
    decreases |s|, 1
  {
    if s == "" then Bad
    else if s[0] == '"' then
      match ParseText(s[1..])
      case Bad => Bad
      case Good(text, rest) => Good(String(text), rest)
    else if s[0] == '{' then
      var t := Skip(s[1..]);
      if t != "" && t[0] == '}' then Good(Object(map[]), t[1..]) else ParseMembers(t, map[])
    else if s[0] == '[' then
      var t := Skip(s[1..]);
      if t != "" && t[0] == ']' then Good(Array([]), t[1..]) else ParseItems(t, [])
    else if "null" <= s then Good(Null, s[4..])
    else if "true" <= s then Good(Bool(true), s[4..])
    else if "false" <= s then Good(Bool(false), s[5..])
    else if "NaN" <= s then Good(Float(s[..3]), s[3..])
    else if "Infinity" <= s then Good(Float(s[..8]), s[8..])
    else if "-Infinity" <= s then Good(Float(s[..9]), s[9..])
    else ParseNumber(s)
  }

  /** Members up to the closing brace; a repeated name keeps its last value. */
  function ParseMembers(s: string, members: map<string, Value>): (r: Parsed<Value>)
    ensures r.Good? ==> |r.rest| < |s|
    decreases |s|, 0
  {
    if s == "" || s[0] != '"' then Bad
    else
      match ParseText(s[1..])
      case Bad => Bad
      case Good(name, afterName) =>
        var colon := Skip(afterName);
        if colon == "" || colon[0] != ':' then Bad
        else
          var t := Skip(colon[1..]);
          match ParseValue(t)
          case Bad => Bad
          case Good(value, afterValue) =>
            var u := Skip(afterValue);
            if u == "" then Bad
            else if u[0] == '}' then Good(Object(members[name := value]), u[1..])
            else if u[0] == ',' then ParseMembers(Skip(u[1..]), members[name := value])
            else Bad
  }

  function ParseItems(s: string, items: seq<Value>): (r: Parsed<Value>)
    ensures r.Good? ==> |r.rest| < |s|
    decreases |s|, 2
  {
    match ParseValue(s)
    case Bad => Bad
    case Good(value, afterValue) =>
      var u := Skip(afterValue);
      if u == "" then Bad
      else if u[0] == ']' then Good(Array(items + [value]), u[1..])
      else if u[0] == ',' then ParseItems(Skip(u[1..]), items + [value])
      else Bad
  }

  /** `json.loads`. */
  function Loads(s: string): Option<Value> {
    match ParseValue(Skip(s))
    case Bad => None
    case Good(value, rest) => if Skip(rest) == "" then Some(value) else None
  }

  // ----- writing -----

  function Digit(v: nat): (c: char)
    requires v < 10
    ensures IsDigit(c) && DigitValue(c) == v
  {
    ('0' as int + v) as char
  }

  /** `str(n)` for a natural number. */
  function Decimal(n: nat): (d: string)
    ensures d != "" && forall i :: 0 <= i < |d| ==> IsDigit(d[i])
    ensures n > 0 ==> d[0] != '0'
    ensures n == 0 ==> d == "0"
  {
    if n < 10 then [Digit(n)] else Decimal(n / 10) + [Digit(n % 10)]
  }

  /** No quote, backslash or control character. */
  predicate Plain(s: string) {
    forall i :: 0 <= i < |s| ==> s[i] >= ' ' && s[i] != '"' && s[i] != '\\'
  }

  predicate Simple(v: Value) {
    v.Null? || v.Int? || (v.String? && Plain(v.s))
  }

  /** `str(n)`. */
  function DumpInt(n: int): string {
    if n < 0 then "-" + Decimal(0 - n) else Decimal(n)
  }

  /** `json.dumps` of the values a header holds. */
  function Dump(v: Value): string
    requires Simple(v)
  {
    match v
    case Null => "null"
    case Int(n) => DumpInt(n)
    case String(s) => "\"" + s + "\""
  }

  predicate SimpleMembers(members: seq<(string, Value)>) {
    members != [] && forall i :: 0 <= i < |members| ==> Plain(members[i].0) && Simple(members[i].1)
  }

  function MemberText(name: string, value: Value, tail: string): (s: string)
    requires Simple(value)
    ensures s != "" && s[0] == '"'
  {
    "\"" + (name + "\"" + (":" + (Dump(value) + tail)))
  }

  /** `"name":value` for every member, joined by commas and followed by the closing brace. */
  function DumpMembers(members: seq<(string, Value)>): string
    requires SimpleMembers(members)
  {
    var (name, value) := members[0];
    MemberText(name, value, if |members| == 1 then "}" else "," + DumpMembers(members[1..]))
  }

  function Dumps(members: seq<(string, Value)>): string
    requires SimpleMembers(members)
  {
    "{" + DumpMembers(members)
  }

  // ----- what is written is read back -----

  lemma {:induction false} DigitsOfDecimal(d: string, rest: string)
    requires forall i :: 0 <= i < |d| ==> IsDigit(d[i])
    requires rest == "" || !IsDigit(rest[0])
    ensures Digits(d + rest) == d
  {
    if d == "" {
      assert d + rest == rest;
    } else {
      assert (d + rest)[1..] == d[1..] + rest;
      DigitsOfDecimal(d[1..], rest);
    }
  }

  lemma {:induction false} NumberOfDecimal(n: nat)
    ensures Number(Decimal(n)) == n
  {
    if n < 10 {
      assert [Digit(n)][..0] == "";
    } else {
      NumberOfDecimal(n / 10);
      var d := Decimal(n / 10);
      assert (d + [Digit(n % 10)])[..|d|] == d;
    }
  }

  /** What may follow a value in a compact object. */
  predicate Closes(rest: string) {
    rest != "" && (rest[0] == ',' || rest[0] == '}')
  }

  /** A run of digits without a leading zero. */
  predicate Whole(run: string) {
    run != "" && (forall i :: 0 <= i < |run| ==> IsDigit(run[i])) && (run[0] == '0' ==> |run| == 1)
  }

  lemma NoMore(front: string, negative: bool, run: string, rest: string)
    requires Whole(run) && Closes(rest)
    ensures NumberFrom(front, negative, run, rest) == Good(Int(if negative then 0 - Number(run) else Number(run)), rest)
    ensures run[0] == '0' ==> run[..1] == run
  {
    NoFraction(rest);
    assert rest[0..] == rest;
  }

  lemma ReadPositive(run: string, rest: string)
    requires Whole(run) && Closes(rest)
    ensures ParseNumber(run + rest) == Good(Int(Number(run)), rest)
  {
    DigitsOfDecimal(run, rest);
    hide Digits, Number, NumberFrom;
    var s := run + rest;
    assert s[0] == run[0] && s[0..] == s && s[|run|..] == rest;
    NoMore(s[..|run|], false, run, rest);
  }

  lemma ReadNegative(run: string, rest: string)
    requires Whole(run) && Closes(rest)
    ensures ParseNumber("-" + run + rest) == Good(Int(0 - Number(run)), rest)
  {
    DigitsOfDecimal(run, rest);
    hide Digits, Number, NumberFrom;
    var s := "-" + run + rest;
    assert s[0] == '-' && s[1..] == run + rest && s[1 + |run|..] == rest;
    NoMore(s[..1 + |run|], true, run, rest);
  }

  lemma ReadInt(n: int, rest: string)
    requires Closes(rest)
    ensures ParseNumber(DumpInt(n) + rest) == Good(Int(n), rest)
  {
    hide ParseNumber, Number;
    var m: nat := if n < 0 then 0 - n else n;
    NumberOfDecimal(m);
    hide Decimal;
    if n < 0 { ReadNegative(Decimal(m), rest); } else { ReadPositive(Decimal(m), rest); }
  }

  lemma NoFraction(rest: string)
    requires Closes(rest)
    ensures FractionLength(rest) == 0 && ExponentLength(rest) == 0
  {
  }

  lemma {:induction false} ReadText(text: string, rest: string)
    requires Plain(text)
    ensures ParseText(text + "\"" + rest) == Good(text, rest)
  {
    var s := text + "\"" + rest;
    if text == "" {
      assert s[1..] == rest;
    } else {
      assert s[1..] == text[1..] + "\"" + rest;
      ReadText(text[1..], rest);
      assert [text[0]] + text[1..] == text;
    }
  }

  lemma ReadNull(rest: string)
    ensures ParseValue("null" + rest) == Good(Null, rest)
  {
    hide ParseText, ParseMembers, ParseItems, ParseNumber;
    var s := "null" + rest;
    assert s[..4] == "null" && s[4..] == rest && s[0] == 'n';
  }

  lemma ReadString(text: string, rest: string)
    requires Plain(text)
    ensures ParseValue("\"" + text + "\"" + rest) == Good(String(text), rest)
  {
    ReadText(text, rest);
    hide ParseText, ParseMembers, ParseItems, ParseNumber;
    var s := "\"" + text + "\"" + rest;
    assert s[0] == '"' && s[1..] == text + "\"" + rest;
  }

  /** What starts with a digit, or with a sign and a digit, is a number. */
  lemma DispatchNumber(s: string)
    requires s != "" && (IsDigit(s[0]) || (|s| > 1 && s[0] == '-' && IsDigit(s[1])))
    ensures ParseValue(s) == ParseNumber(s) && !IsSpace(s[0])
  {
    hide ParseText, ParseMembers, ParseItems, ParseNumber, Skip;
    assert !("null" <= s) && !("true" <= s) && !("false" <= s) && !("NaN" <= s) && !("Infinity" <= s);
    assert !("-Infinity" <= s);
  }

  lemma ReadInteger(n: int, rest: string)
    requires Closes(rest)
    ensures ParseValue(DumpInt(n) + rest) == Good(Int(n), rest)
    ensures DumpInt(n) != "" && !IsSpace(DumpInt(n)[0])
  {
    ReadInt(n, rest);
    hide ParseValue, ParseNumber, Decimal;
    var s := DumpInt(n) + rest;
    assert s[0] == DumpInt(n)[0] && (|DumpInt(n)| > 1 ==> s[1] == DumpInt(n)[1]);
    DispatchNumber(s);
  }

  lemma ReadValue(v: Value, rest: string)
    requires Simple(v) && Closes(rest)
    ensures ParseValue(Dump(v) + rest) == Good(v, rest)
    ensures Dump(v) != "" && !IsSpace(Dump(v)[0])
  {
    hide ParseValue, DumpInt;
    match v
    case Null => ReadNull(rest);
    case String(text) => ReadString(text, rest);
    case Int(n) => ReadInteger(n, rest);
  }

  /** The members set one after the other. */
  function Updated(members: map<string, Value>, more: seq<(string, Value)>): map<string, Value>
    decreases |more|
  {
    if more == [] then members else Updated(members[more[0].0 := more[0].1], more[1..])
  }

  /** What follows a member's value decides how the object goes on. */
  function After(name: string, value: Value, tail: string, before: map<string, Value>): Parsed<Value> {
    var u := Skip(tail);
    if u == "" then Bad
    else if u[0] == '}' then Good(Object(before[name := value]), u[1..])
    else if u[0] == ',' then ParseMembers(Skip(u[1..]), before[name := value])
    else Bad
  }

  /** The parser's path through one member, given what its parts are read as. */
  lemma OneMember(s: string, name: string, colon: string, text: string, value: Value, tail: string,
                  before: map<string, Value>)
    requires s != "" && s[0] == '"' && ParseText(s[1..]) == Good(name, colon)
    requires colon != "" && colon[0] == ':' && colon[1..] == text
    requires text != "" && !IsSpace(text[0]) && ParseValue(text) == Good(value, tail)
    ensures ParseMembers(s, before) == After(name, value, tail, before)
  {
    hide ParseText, ParseValue, ParseItems;
    assert Skip(colon) == colon && Skip(colon[1..]) == text;
  }

  /** One `"name":value` and what follows it. */
  lemma ReadMember(name: string, value: Value, tail: string, before: map<string, Value>)
    requires Plain(name) && Simple(value) && Closes(tail)
    ensures ParseMembers(MemberText(name, value, tail), before) == After(name, value, tail, before)
  {
    var s, text := MemberText(name, value, tail), Dump(value) + tail;
    ReadText(name, ":" + text);
    ReadValue(value, tail);
    hide ParseText, ParseValue, ParseMembers, Dump, After;
    assert s[1..] == name + "\"" + (":" + text);
    assert (":" + text)[1..] == text && text[0] == Dump(value)[0];
    OneMember(s, name, ":" + text, text, value, tail, before);
  }

  lemma {:induction false} ReadMembers(members: seq<(string, Value)>, before: map<string, Value>)
    requires SimpleMembers(members)
    ensures ParseMembers(DumpMembers(members), before) == Good(Object(Updated(before, members)), "")
    ensures DumpMembers(members)[0] == '"'
    decreases |members|
  {
    hide ParseMembers;
    var (name, value) := members[0];
    var tail := if |members| == 1 then "}" else "," + DumpMembers(members[1..]);
    ReadMember(name, value, tail, before);
    if |members| == 1 {
      assert members[1..] == [] && tail[1..] == "";
    } else {
      assert tail[1..] == DumpMembers(members[1..]);
      ReadMembers(members[1..], before[name := value]);
    }
  }

  lemma DispatchObject(s: string)
    requires s != "" && s[0] == '"'
    ensures ParseValue("{" + s) == ParseMembers(s, map[])
  {
    hide ParseText, ParseMembers, ParseItems, ParseNumber;
    assert ("{" + s)[1..] == s;
  }

  /** `json.loads(json.dumps(o)) == o` for an object of integers, plain strings and nulls. */
  lemma LoadsDumps(members: seq<(string, Value)>)
    requires SimpleMembers(members)
    ensures Loads(Dumps(members)) == Some(Object(Updated(map[], members)))
  {
    ReadMembers(members, map[]);
    DispatchObject(DumpMembers(members));
    hide ParseValue, ParseMembers, DumpMembers, Updated;
  }

  /** A dumped object is one line. */
  lemma {:induction false} OneLine(members: seq<(string, Value)>)
    requires SimpleMembers(members)
    ensures '\n' !in DumpMembers(members)
  {
    var (name, value) := members[0];
    assert '\n' !in name && '\n' !in Dump(value);
    if |members| > 1 { OneLine(members[1..]); }
  }
}
