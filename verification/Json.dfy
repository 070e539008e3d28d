/** The canonical JSON text of a payload, and a parser that inverts the printer.
  *
  * Objects are dictionaries in insertion order. The printer sorts keys by code point, uses the
  * separators `,` and `:`, leaves non-ASCII characters alone and escapes strings as in section 7 of
  * RFC 8259.
  */
module Json {
  import opened Common

  datatype Json = Null | Bool(b: bool) | Int(i: int) | Str(s: string) | Arr(items: Items) | Obj(fields: Fields)
  datatype Items = NoItems | Item(element: Json, others: Items)
  datatype Fields = NoFields | Field(key: string, content: Json, rest: Fields)

  // ---------------------------------------------------------------- printing

  function Digit(n: nat): char
    requires n < 10
  {
    "0123456789"[n]
  }

  function HexDigit(n: nat): char
    requires n < 16
  {
    "0123456789abcdef"[n]
  }

  function Digits(n: nat): (r: string)
    ensures r != "" && IsDigit(r[0])
  {
    if n < 10 then [Digit(n)] else Digits(n / 10) + [Digit(n % 10)]
  }

  function PrintInt(i: int): string {
    if i < 0 then "-" + Digits(-i) else Digits(i)
  }

  function Escape(c: char): string {
    if c == '\"' then "\\\""
    else if c == '\\' then "\\\\"
    else if c == '\n' then "\\n"
    else if c == '\r' then "\\r"
    else if c == '\t' then "\\t"
    else if c == '\U{8}' then "\\b"
    else if c == '\U{c}' then "\\f"
    else if c < ' ' then "\\u00" + [HexDigit(c as int / 16), HexDigit(c as int % 16)]
    else [c]
  }

  function EscapeAll(s: string): string {
    if s == "" then "" else Escape(s[0]) + EscapeAll(s[1..])
  }

  function PrintString(s: string): string {
    "\"" + EscapeAll(s) + "\""
  }

  function Print(v: Json): string {
    match v
    case Null => "null"
    case Bool(b) => if b then "true" else "false"
    case Int(i) => PrintInt(i)
    case Str(s) => PrintString(s)
    case Arr(items) => "[" + PrintItems(items)
    case Obj(fields) => "{" + PrintFields(fields)
  }

  /** The items, separated by commas, and the closing bracket. */
  function PrintItems(items: Items): string {
    match items
    case NoItems => "]"
    case Item(v, NoItems) => Print(v) + "]"
    case Item(v, others) => Print(v) + "," + PrintItems(others)
  }

  function PrintFields(fields: Fields): string {
    match fields
    case NoFields => "}"
    case Field(k, v, NoFields) => PrintString(k) + ":" + Print(v) + "}"
    case Field(k, v, rest) => PrintString(k) + ":" + Print(v) + "," + PrintFields(rest)
  }

  // ---------------------------------------------------------------- parsing

  /** A value read from the front of a text, with what is left of the text. */
  datatype Parsed<+T> = Fail | Read(value: T, left: string)

  predicate IsDigit(c: char) {
    '0' <= c <= '9'
  }

  function ParseDigits(s: string, n: nat): (r: (nat, string))
    ensures |r.1| <= |s|
  {
    if s != "" && IsDigit(s[0]) then ParseDigits(s[1..], 10 * n + (s[0] as int - '0' as int)) else (n, s)
  }

  function HexValue(c: char): Option<nat> {
    if '0' <= c <= '9' then Some(c as int - '0' as int)
    else if 'a' <= c <= 'f' then Some(c as int - 'a' as int + 10)
    else if 'A' <= c <= 'F' then Some(c as int - 'A' as int + 10)
    else None
  }

  /** The four hexadecimal digits of a `\u` escape of a character below the surrogates. */
  function ParseHex(s: string): (r: Parsed<char>)
    ensures r.Read? ==> |r.left| < |s|
  {
    if |s| < 4 || HexValue(s[0]).None? || HexValue(s[1]).None? || HexValue(s[2]).None? || HexValue(s[3]).None? then Fail
    else
      var n := 4096 * HexValue(s[0]).value + 256 * HexValue(s[1]).value + 16 * HexValue(s[2]).value
               + HexValue(s[3]).value;
      if n < 0xD800 then Read(n as char, s[4..]) else Fail
  }

  /** One character of a string, after its escape if it has one. */
  function ParseChar(s: string): (r: Parsed<char>)
    ensures r.Read? ==> |r.left| < |s|
  {
    if s == "" || s[0] < ' ' then Fail
    else if s[0] != '\\' then Read(s[0], s[1..])
    else if |s| < 2 then Fail
    else match s[1]
      case '\"' => Read('\"', s[2..])
      case '\\' => Read('\\', s[2..])
      case '/' => Read('/', s[2..])
      case 'n' => Read('\n', s[2..])
      case 'r' => Read('\r', s[2..])
      case 't' => Read('\t', s[2..])
      case 'b' => Read('\U{8}', s[2..])
      case 'f' => Read('\U{c}', s[2..])
      case 'u' => ParseHex(s[2..])
      case _ => Fail
  }

  /** The rest of a string literal whose opening quote has been read. */
  function ParseString(s: string): (r: Parsed<string>)
    ensures r.Read? ==> |r.left| < |s|
  {
    if s == "" then Fail
    else if s[0] == '\"' then Read("", s[1..])
    else
      var c := ParseChar(s);
      if c.Fail? then Fail
      else
        var more := ParseString(c.left);
        if more.Fail? then Fail else Read([c.value] + more.value, more.left)
  }

  function Parse(s: string): (r: Parsed<Json>)
    ensures r.Read? ==> |r.left| < |s|
    decreases |s|, 0
  {
    if s == "" then Fail
    else match s[0]
      case '\"' =>
        var t := ParseString(s[1..]);
        if t.Fail? then Fail else Read(Str(t.value), t.left)
      case '[' =>
        var t := ParseItems(s[1..]);
        if t.Fail? then Fail else Read(Arr(t.value), t.left)
      case '{' =>
        var t := ParseFields(s[1..]);
        if t.Fail? then Fail else Read(Obj(t.value), t.left)
      case _ => ParseScalar(s)
  }

  /** A literal name or a number. */
  function ParseScalar(s: string): (r: Parsed<Json>)
    requires s != ""
    ensures r.Read? ==> |r.left| < |s|
  {
    if "null" <= s then Read(Null, s[4..])
    else if "true" <= s then Read(Bool(true), s[4..])
    else if "false" <= s then Read(Bool(false), s[5..])
    else if s[0] == '-' then
      if |s| > 1 && IsDigit(s[1]) then
        var (n, left) := ParseDigits(s[1..], 0);
        Read(Int(0 - n as int), left)
      else Fail
    else if IsDigit(s[0]) then
      var (n, left) := ParseDigits(s[1..], s[0] as int - '0' as int);
      Read(Int(n), left)
    else Fail
  }

  function ParseItems(s: string): (r: Parsed<Items>)
    ensures r.Read? ==> |r.left| < |s|
    decreases |s|, 1
  {
    if s != "" && s[0] == ']' then Read(NoItems, s[1..])
    else
      var v := Parse(s);
      if v.Fail? || v.left == "" then Fail
      else if v.left[0] == ']' then Read(Item(v.value, NoItems), v.left[1..])
      else if v.left[0] == ',' then
        var more := ParseItems(v.left[1..]);
        if more.Fail? then Fail else Read(Item(v.value, more.value), more.left)
      else Fail
  }

  function ParseFields(s: string): (r: Parsed<Fields>)
    ensures r.Read? ==> |r.left| < |s|
    decreases |s|, 1
  {
    if s != "" && s[0] == '}' then Read(NoFields, s[1..])
    else if s == "" || s[0] != '\"' then Fail
    else
      var k := ParseString(s[1..]);
      if k.Fail? || k.left == "" || k.left[0] != ':' then Fail
      else
        var v := Parse(k.left[1..]);
        if v.Fail? || v.left == "" then Fail
        else if v.left[0] == '}' then Read(Field(k.value, v.value, NoFields), v.left[1..])
        else if v.left[0] == ',' then
          var more := ParseFields(v.left[1..]);
          if more.Fail? then Fail else Read(Field(k.value, v.value, more.value), more.left)
        else Fail
  }

  // ---------------------------------------------------------------- parsing inverts printing

  lemma {:induction false} DigitsParse(n: nat, left: string)
    ensures ParseDigits(Digits(n) + left, 0) == ParseDigits(left, n)
  {
    if n < 10 {
      assert (Digits(n) + left)[1..] == left;
    } else {
      var d := Digit(n % 10);
      assert Digits(n) + left == Digits(n / 10) + ([d] + left);
      DigitsParse(n / 10, [d] + left);
      assert ([d] + left)[1..] == left;
      assert IsDigit(d) && d as int - '0' as int == n % 10;
    }
  }

  lemma EscapeParse(c: char, left: string)
    ensures Escape(c)[0] != '\"' && ParseChar(Escape(c) + left) == Read(c, left)
  {
    var s := Escape(c) + left;
    if |Escape(c)| == 2 {
      assert s[2..] == left;
    } else if |Escape(c)| == 1 {
      assert s[1..] == left;
    } else {
      ControlParse(c, left);
    }
  }

  lemma ControlParse(c: char, left: string)
    requires c < ' '
    ensures ParseChar("\\u00" + [HexDigit(c as int / 16), HexDigit(c as int % 16)] + left) == Read(c, left)
  {
    var t := "00" + [HexDigit(c as int / 16), HexDigit(c as int % 16)] + left;
    var s := "\\u00" + [HexDigit(c as int / 16), HexDigit(c as int % 16)] + left;
    assert s == "\\u" + t && s[2..] == t && t[4..] == left;
    assert HexValue(t[2]) == Some(c as int / 16) && HexValue(t[3]) == Some(c as int % 16);
  }

  lemma {:induction false} StringParse(s: string, left: string)
    ensures ParseString(EscapeAll(s) + "\"" + left) == Read(s, left)
  {
    var text := EscapeAll(s) + "\"" + left;
    if s == "" {
      assert text[1..] == left;
    } else {
      var more := EscapeAll(s[1..]) + "\"" + left;
      assert text == Escape(s[0]) + more;
      EscapeParse(s[0], more);
      StringParse(s[1..], left);
      assert [s[0]] + s[1..] == s;
    }
  }

  /** What follows a value does not continue it: no digit after a number. */
  predicate Delimits(left: string) {
    left == "" || !IsDigit(left[0])
  }

  /** The text is read as number `n`, whole or after its first digit, and `left` remains. */
  predicate ReadsNumber(text: string, n: nat, left: string) {
    && text != "" && IsDigit(text[0]) && ParseDigits(text, 0) == (n, left)
    && ParseDigits(text[1..], text[0] as int - '0' as int) == (n, left)
  }

  lemma NaturalParse(n: nat, left: string)
    requires Delimits(left)
    ensures ReadsNumber(Digits(n) + left, n, left)
  {
    DigitsParse(n, left);
    NumeralParse(Digits(n) + left, n, left, Digits(n));
  }

  /** A numeral before text that starts with no digit is read as its number. */
  lemma NumeralParse(text: string, n: nat, left: string, digits: string)
    requires text == digits + left && digits != "" && IsDigit(digits[0]) && Delimits(left)
    requires ParseDigits(text, 0) == ParseDigits(left, n)
    ensures ReadsNumber(text, n, left)
  {
    NoDigit(left, n);
    FirstDigit(text);
  }

  lemma FirstDigit(s: string)
    requires s != "" && IsDigit(s[0])
    ensures ParseDigits(s, 0) == ParseDigits(s[1..], s[0] as int - '0' as int)
  {
  }

  lemma NoDigit(left: string, n: nat)
    requires Delimits(left)
    ensures ParseDigits(left, n) == (n, left)
  {
  }

  lemma LiteralParse(v: Json, left: string)
    requires v.Null? || v.Bool?
    ensures Parse(Print(v) + left) == Read(v, left)
  {
    match v
    case Null =>
      var text := "null" + left;
      assert "null" <= text && text[4..] == left;
      ScalarCase(text);
    case Bool(true) =>
      var text := "true" + left;
      assert "true" <= text && text[0] == 't' && text[4..] == left;
      ScalarCase(text);
    case Bool(false) =>
      var text := "false" + left;
      assert "false" <= text && text[0] == 'f' && text[5..] == left;
      ScalarCase(text);
  }

  lemma ScalarCase(s: string)
    requires s != "" && s[0] != '\"' && s[0] != '[' && s[0] != '{'
    ensures Parse(s) == ParseScalar(s)
  {
  }

  lemma NegativeParse(body: string)
    requires body != "" && IsDigit(body[0])
    ensures ParseScalar("-" + body) == Read(Int(-(ParseDigits(body, 0).0 as int)), ParseDigits(body, 0).1)
  {
    var text := "-" + body;
    assert text[0] == '-' && text[1] == body[0] && text[1..] == body;
  }

  lemma PositiveParse(body: string)
    requires body != "" && IsDigit(body[0])
    ensures var r := ParseDigits(body[1..], body[0] as int - '0' as int); ParseScalar(body) == Read(Int(r.0), r.1)
  {
  }

  lemma NegativeText(n: nat, left: string)
    requires n > 0 && Delimits(left)
    ensures ParseScalar("-" + (Digits(n) + left)) == Read(Int(-(n as int)), left)
  {
    NaturalParse(n, left);
    NegativeParse(Digits(n) + left);
  }

  lemma NaturalText(n: nat, left: string)
    requires Delimits(left)
    ensures ParseScalar(Digits(n) + left) == Read(Int(n), left)
  {
    NaturalParse(n, left);
    PositiveParse(Digits(n) + left);
  }

  lemma NegativeInt(n: nat, left: string)
    requires n > 0 && Delimits(left)
    ensures Parse("-" + (Digits(n) + left)) == Read(Int(-(n as int)), left)
  {
    NegativeText(n, left);
    ScalarCase("-" + (Digits(n) + left));
  }

  lemma NaturalInt(n: nat, left: string)
    requires Delimits(left)
    ensures Parse(Digits(n) + left) == Read(Int(n), left)
  {
    NaturalText(n, left);
    assert (Digits(n) + left)[0] == Digits(n)[0];
    ScalarCase(Digits(n) + left);
  }

  lemma PrintedInt(i: int, left: string)
    ensures PrintInt(i) + left == if i < 0 then "-" + (Digits(-i) + left) else Digits(i) + left
  {
  }

  lemma IntParse(i: int, left: string)
    requires Delimits(left)
    ensures Parse(PrintInt(i) + left) == Read(Int(i), left)
  {
    PrintedInt(i, left);
    if i < 0 {
      NegativeInt(-i, left);
    } else {
      NaturalInt(i, left);
    }
  }

  lemma StringCase(body: string)
    ensures Parse("\"" + body)
            == (var t := ParseString(body); if t.Fail? then Fail else Read(Str(t.value), t.left))
  {
    var text := "\"" + body;
    assert text[0] == '\"' && text[1..] == body;
  }

  lemma ArrayCase(body: string)
    ensures Parse("[" + body)
            == (var t := ParseItems(body); if t.Fail? then Fail else Read(Arr(t.value), t.left))
  {
    var text := "[" + body;
    assert text[0] == '[' && text[1..] == body;
  }

  lemma ObjectCase(body: string)
    ensures Parse("{" + body)
            == (var t := ParseFields(body); if t.Fail? then Fail else Read(Obj(t.value), t.left))
  {
    var text := "{" + body;
    assert text[0] == '{' && text[1..] == body;
  }

  lemma StringText(s: string, left: string)
    ensures Parse(PrintString(s) + left) == Read(Str(s), left)
  {
    StringParse(s, left);
    Quoted(EscapeAll(s), left);
  }

  lemma Quoted(body: string, left: string)
    ensures Parse("\"" + body + "\"" + left)
            == (var t := ParseString(body + "\"" + left); if t.Fail? then Fail else Read(Str(t.value), t.left))
  {
    StringCase(body + "\"" + left);
    assert "\"" + body + "\"" + left == "\"" + (body + "\"" + left);
  }

  lemma ArrayText(items: Items, printed: string, left: string)
    requires ParseItems(printed + left) == Read(items, left)
    ensures Parse("[" + printed + left) == Read(Arr(items), left)
  {
    ArrayCase(printed + left);
    assert "[" + printed + left == "[" + (printed + left);
  }

  lemma ObjectText(fields: Fields, printed: string, left: string)
    requires ParseFields(printed + left) == Read(fields, left)
    ensures Parse("{" + printed + left) == Read(Obj(fields), left)
  {
    ObjectCase(printed + left);
    assert "{" + printed + left == "{" + (printed + left);
  }

  /** Parsing a printed value gives it back, with the rest of the text. */
  lemma {:induction false} ParseInvertsPrint(v: Json, left: string)
    requires Delimits(left)
    ensures Parse(Print(v) + left) == Read(v, left)
    decreases v, 0
  {
    match v
    case Int(i) => IntParse(i, left);
    case Str(s) => StringText(s, left);
    case Arr(items) =>
      ItemsInvert(items, left);
      ArrayText(items, PrintItems(items), left);
    case Obj(fields) =>
      FieldsInvert(fields, left);
      ObjectText(fields, PrintFields(fields), left);
    case _ => LiteralParse(v, left);
  }

  /** A printed value starts with a character that closes nothing. */
  lemma FirstCharacter(v: Json)
    ensures Print(v) != "" && Print(v)[0] != ']' && Print(v)[0] != '}'
  {
  }

  lemma {:induction false} ItemsInvert(items: Items, left: string)
    ensures ParseItems(PrintItems(items) + left) == Read(items, left)
    decreases items, 1
  {
    var text := PrintItems(items) + left;
    match items
    case NoItems => assert text[1..] == left;
    case Item(v, others) =>
      FirstCharacter(v);
      var more := if others.NoItems? then "]" + left else "," + (PrintItems(others) + left);
      assert text == Print(v) + more;
      ParseInvertsPrint(v, more);
      if others.NoItems? {
        assert more[1..] == left;
      } else {
        assert more[1..] == PrintItems(others) + left;
        ItemsInvert(others, left);
      }
  }

  lemma {:induction false} FieldsInvert(fields: Fields, left: string)
    ensures ParseFields(PrintFields(fields) + left) == Read(fields, left)
    decreases fields, 1
  {
    match fields
    case NoFields => assert ("}" + left)[1..] == left;
    case Field(k, v, rest) =>
      var more := if rest.NoFields? then "}" + left else "," + (PrintFields(rest) + left);
      ParseInvertsPrint(v, more);
      if rest.Field? {
        FieldsInvert(rest, left);
        FieldStep(k, v, Print(v), PrintFields(rest) + left);
      } else {
        LastField(k, v, Print(v), left);
      }
      FieldText(k, v, rest, left, more);
  }

  lemma FieldText(k: string, v: Json, rest: Fields, left: string, more: string)
    requires more == if rest.NoFields? then "}" + left else "," + (PrintFields(rest) + left)
    ensures PrintFields(Field(k, v, rest)) + left == PrintString(k) + (":" + (Print(v) + more))
  {
  }

  /** A key is read up to the colon. */
  lemma KeyParse(k: string, text: string)
    ensures var s := PrintString(k) + (":" + text);
            s[0] == '\"' && ParseString(s[1..]) == Read(k, ":" + text) && (":" + text)[1..] == text
  {
    StringParse(k, ":" + text);
    QuotedTail(EscapeAll(k), ":" + text);
  }

  lemma QuotedTail(inner: string, left: string)
    ensures ("\"" + inner + "\"" + left)[0] == '\"'
    ensures ("\"" + inner + "\"" + left)[1..] == inner + "\"" + left
  {
  }

  lemma LastField(k: string, v: Json, printed: string, left: string)
    requires Parse(printed + ("}" + left)) == Read(v, "}" + left)
    ensures ParseFields(PrintString(k) + (":" + (printed + ("}" + left)))) == Read(Field(k, v, NoFields), left)
  {
    KeyParse(k, printed + ("}" + left));
    assert ("}" + left)[1..] == left;
  }

  lemma FieldStep(k: string, v: Json, printed: string, body: string)
    requires Parse(printed + ("," + body)) == Read(v, "," + body)
    ensures ParseFields(PrintString(k) + (":" + (printed + ("," + body))))
            == (var t := ParseFields(body); if t.Fail? then Fail else Read(Field(k, v, t.value), t.left))
  {
    KeyParse(k, printed + ("," + body));
    assert ("," + body)[1..] == body;
  }

  // ---------------------------------------------------------------- key order

  /** What a payload means: objects are finite maps. */
  datatype Value = VNull | VBool(b: bool) | VInt(i: int) | VStr(s: string) | VArr(seq<Value>) | VObj(map<string, Value>)

  function Denote(v: Json): Value {
    match v
    case Null => VNull
    case Bool(b) => VBool(b)
    case Int(i) => VInt(i)
    case Str(s) => VStr(s)
    case Arr(items) => VArr(DenoteItems(items))
    case Obj(fields) => VObj(DenoteFields(fields))
  }

  function DenoteItems(items: Items): seq<Value> {
    match items
    case NoItems => []
    case Item(v, others) => [Denote(v)] + DenoteItems(others)
  }

  function DenoteFields(fields: Fields): (m: map<string, Value>)
    ensures m.Keys == Keys(fields)
  {
    match fields
    case NoFields => map[]
    case Field(k, v, rest) => DenoteFields(rest)[k := Denote(v)]
  }

  function Keys(fields: Fields): set<string> {
    match fields
    case NoFields => {}
    case Field(k, _, rest) => {k} + Keys(rest)
  }

  /** A dictionary has one value for each key. */
  predicate KeysDistinct(v: Json) {
    match v
    case Arr(items) => ItemsDistinct(items)
    case Obj(fields) => FieldsDistinct(fields)
    case _ => true
  }

  predicate ItemsDistinct(items: Items) {
    items.Item? ==> KeysDistinct(items.element) && ItemsDistinct(items.others)
  }

  predicate FieldsDistinct(fields: Fields) {
    fields.Field? ==> fields.key !in Keys(fields.rest) && KeysDistinct(fields.content) && FieldsDistinct(fields.rest)
  }

  /** Comparison of strings by code point. */
  predicate Less(a: string, b: string) {
    b != "" && (a == "" || a[0] < b[0] || (a[0] == b[0] && Less(a[1..], b[1..])))
  }

  lemma {:induction false} LessTotal(a: string, b: string)
    ensures Less(a, b) || Less(b, a) || a == b
    ensures !(Less(a, b) && Less(b, a)) && !Less(a, a)
  {
    if a != "" && b != "" {
      LessTotal(a[1..], b[1..]);
      LessTotal(a[1..], a[1..]);
      assert a == [a[0]] + a[1..] && b == [b[0]] + b[1..];
    } else if a != "" {
      LessTotal(a[1..], a[1..]);
    }
  }

  lemma {:induction false} LessTransitive(a: string, b: string, c: string)
    requires Less(a, b) && Less(b, c)
    ensures Less(a, c)
  {
    if a != "" && a[0] == b[0] == c[0] {
      LessTransitive(a[1..], b[1..], c[1..]);
    }
  }

  function Insert(key: string, v: Json, sorted: Fields): Fields {
    match sorted
    case NoFields => Field(key, v, NoFields)
    case Field(k, c, rest) => if Less(k, key) then Field(k, c, Insert(key, v, rest)) else Field(key, v, sorted)
  }

  /** The same payload with every object's keys sorted. */
  function Canon(v: Json): Json {
    match v
    case Arr(items) => Arr(CanonItems(items))
    case Obj(fields) => Obj(CanonFields(fields))
    case _ => v
  }

  function CanonItems(items: Items): Items {
    match items
    case NoItems => NoItems
    case Item(v, others) => Item(Canon(v), CanonItems(others))
  }

  function CanonFields(fields: Fields): Fields {
    match fields
    case NoFields => NoFields
    case Field(k, v, rest) => Insert(k, Canon(v), CanonFields(rest))
  }

  function CanonicalJson(v: Json): string {
    Print(Canon(v))
  }

  ghost predicate Ordered(v: Json) {
    match v
    case Arr(items) => OrderedItems(items)
    case Obj(fields) => OrderedFields(fields)
    case _ => true
  }

  ghost predicate OrderedItems(items: Items) {
    items.Item? ==> Ordered(items.element) && OrderedItems(items.others)
  }

  ghost predicate OrderedFields(fields: Fields) {
    fields.Field? ==> (forall k :: k in Keys(fields.rest) ==> Less(fields.key, k)) && Ordered(fields.content)
                      && OrderedFields(fields.rest)
  }

  lemma {:induction false} InsertMeans(key: string, v: Json, sorted: Fields)
    requires key !in Keys(sorted)
    ensures Keys(Insert(key, v, sorted)) == Keys(sorted) + {key}
    ensures DenoteFields(Insert(key, v, sorted)) == DenoteFields(sorted)[key := Denote(v)]
  {
    match sorted
    case NoFields =>
    case Field(k, c, rest) =>
      if Less(k, key) {
        InsertMeans(key, v, rest);
        var m := DenoteFields(rest);
        assert m[key := Denote(v)][k := Denote(c)] == m[k := Denote(c)][key := Denote(v)];
      }
  }

  lemma {:induction false} InsertOrdered(key: string, v: Json, sorted: Fields)
    requires OrderedFields(sorted) && Ordered(v) && key !in Keys(sorted)
    ensures OrderedFields(Insert(key, v, sorted))
  {
    match sorted
    case NoFields =>
    case Field(k, c, rest) =>
      LessTotal(k, key);
      if Less(k, key) {
        InsertOrdered(key, v, rest);
        InsertMeans(key, v, rest);
      } else {
        forall other | other in Keys(rest) ensures Less(key, other) {
          LessTransitive(key, k, other);
        }
      }
  }

  /** Sorting keys changes neither what a payload means nor what it holds, only the order. */
  lemma {:induction false} CanonMeans(v: Json)
    requires KeysDistinct(v)
    ensures Ordered(Canon(v)) && Denote(Canon(v)) == Denote(v)
    decreases v, 0
  {
    match v
    case Arr(items) => CanonItemsMeans(items);
    case Obj(fields) => CanonFieldsMeans(fields);
    case _ =>
  }

  lemma {:induction false} CanonItemsMeans(items: Items)
    requires ItemsDistinct(items)
    ensures OrderedItems(CanonItems(items)) && DenoteItems(CanonItems(items)) == DenoteItems(items)
    decreases items, 1
  {
    if items.Item? {
      CanonMeans(items.element);
      CanonItemsMeans(items.others);
    }
  }

  lemma {:induction false} CanonFieldsMeans(fields: Fields)
    requires FieldsDistinct(fields)
    ensures OrderedFields(CanonFields(fields)) && DenoteFields(CanonFields(fields)) == DenoteFields(fields)
    ensures Keys(CanonFields(fields)) == Keys(fields)
    decreases fields, 1
  {
    if fields.Field? {
      CanonMeans(fields.content);
      CanonFieldsMeans(fields.rest);
      InsertOrdered(fields.key, Canon(fields.content), CanonFields(fields.rest));
      InsertMeans(fields.key, Canon(fields.content), CanonFields(fields.rest));
    }
  }

  /** Payloads with sorted keys that mean the same are the same. */
  lemma {:induction false} OrderedUnique(a: Json, b: Json)
    requires Ordered(a) && Ordered(b) && Denote(a) == Denote(b)
    ensures a == b
    decreases a, 0
  {
    match a
    case Arr(items) => OrderedItemsUnique(items, b.items);
    case Obj(fields) => OrderedFieldsUnique(fields, b.fields);
    case _ =>
  }

  lemma {:induction false} OrderedItemsUnique(a: Items, b: Items)
    requires OrderedItems(a) && OrderedItems(b) && DenoteItems(a) == DenoteItems(b)
    ensures a == b
    decreases a, 1
  {
    if a.Item? {
      assert DenoteItems(a)[0] == Denote(a.element);
      assert DenoteItems(b)[0] == Denote(b.element);
      assert DenoteItems(a)[1..] == DenoteItems(a.others);
      assert DenoteItems(b)[1..] == DenoteItems(b.others);
      OrderedUnique(a.element, b.element);
      OrderedItemsUnique(a.others, b.others);
    }
  }

  lemma {:induction false} OrderedFieldsUnique(a: Fields, b: Fields)
    requires OrderedFields(a) && OrderedFields(b) && DenoteFields(a) == DenoteFields(b)
    ensures a == b
    decreases a, 1
  {
    assert Keys(a) == DenoteFields(a).Keys == DenoteFields(b).Keys == Keys(b);
    EmptyKeys(a);
    EmptyKeys(b);
    match a
    case NoFields =>
    case Field(k, v, rest) =>
      SmallestFirst(a, b);
      assert DenoteFields(a)[k] == Denote(v) && DenoteFields(b)[k] == Denote(b.content);
      OrderedUnique(v, b.content);
      WithoutFirst(a);
      WithoutFirst(b);
      OrderedFieldsUnique(rest, b.rest);
  }

  lemma EmptyKeys(fields: Fields)
    ensures Keys(fields) == {} <==> fields.NoFields?
  {
    assert fields.Field? ==> fields.key in Keys(fields);
  }

  lemma SmallestFirst(a: Fields, b: Fields)
    requires a.Field? && b.Field? && OrderedFields(a) && OrderedFields(b) && Keys(a) == Keys(b)
    ensures a.key == b.key
  {
    assert a.key in Keys(b) && b.key in Keys(a);
    LessTotal(a.key, b.key);
  }

  lemma WithoutFirst(a: Fields)
    requires a.Field? && OrderedFields(a)
    ensures DenoteFields(a.rest) == DenoteFields(a) - {a.key}
  {
    LessTotal(a.key, a.key);
    assert a.key !in Keys(a.rest);
  }

  /** The canonical text determines the payload's meaning and depends on nothing else: two dictionaries
    * have one text exactly when they are equal as nested maps, whatever the order of their keys. */
  lemma CanonicalTextIsMeaning(a: Json, b: Json)
    requires KeysDistinct(a) && KeysDistinct(b)
    ensures CanonicalJson(a) == CanonicalJson(b) <==> Denote(a) == Denote(b)
  {
    CanonMeans(a);
    CanonMeans(b);
    if CanonicalJson(a) == CanonicalJson(b) {
      ParseInvertsPrint(Canon(a), "");
      ParseInvertsPrint(Canon(b), "");
    }
    if Denote(a) == Denote(b) {
      OrderedUnique(Canon(a), Canon(b));
    }
  }
}
