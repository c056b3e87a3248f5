/**
 JSON texts as derivation trees of RFC 8259 (sections 2 to 7), with the white
 space each derivation chose, and the text a tree spells.
 */
module JsonGrammar {
  import opened Basics

  datatype StringChar =
    | Plain(c: char)
    | Escape(c: char)
    | Unicode(hex: string)

  datatype Number = Number(minus: bool, whole: string, fraction: Option<string>, exponent: Option<Exponent>)

  datatype Exponent = Exponent(e: char, sign: string, digits: string)

  datatype Value =
    | Literal(name: string)
    | Num(number: Number)
    | Str(chars: seq<StringChar>)
    | Arr(open: string, elements: Elements, close: string)
    | Obj(open: string, members: Members, close: string)

  /** Each element carries the white space around the comma that would follow it. */
  datatype Elements =
    | NoElements
    | Element(value: Value, before: string, after: string, rest: Elements)

  datatype Members =
    | NoMembers
    | Member(key: seq<StringChar>, beforeColon: string, afterColon: string, value: Value,
             before: string, after: string, rest: Members)

  // Which trees are derivations

  predicate Blank(s: string) { forall c :: c in s ==> c in " \t\n\r" }

  predicate Digits(s: string) { s != "" && forall c :: c in s ==> '0' <= c <= '9' }

  predicate HexDigit(c: char) { '0' <= c <= '9' || 'a' <= c <= 'f' || 'A' <= c <= 'F' }

  predicate ValidChar(sc: StringChar) {
    match sc
    case Plain(c) => c as int >= 0x20 && c != '"' && c != '\\'
    case Escape(c) => c in "\"\\/bfnrt"
    case Unicode(hex) => |hex| == 4 && forall c :: c in hex ==> HexDigit(c)
  }

  predicate ValidString(chars: seq<StringChar>) { forall sc :: sc in chars ==> ValidChar(sc) }

  predicate ValidNumber(n: Number) {
    && Digits(n.whole) && (|n.whole| > 1 ==> n.whole[0] != '0')
    && (n.fraction.Some? ==> Digits(n.fraction.value))
    && (n.exponent.Some? ==>
          var x := n.exponent.value;
          x.e in "eE" && x.sign in {"", "+", "-"} && Digits(x.digits))
  }

  predicate Valid(v: Value) {
    match v
    case Literal(name) => name in {"true", "false", "null"}
    case Num(number) => ValidNumber(number)
    case Str(chars) => ValidString(chars)
    case Arr(open, elements, close) => Blank(open) && ValidElements(elements) && Blank(close)
    case Obj(open, members, close) => Blank(open) && ValidMembers(members) && Blank(close)
  }

  predicate ValidElements(es: Elements) {
    match es
    case NoElements => true
    case Element(value, before, after, rest) => Valid(value) && Blank(before) && Blank(after) && ValidElements(rest)
  }

  predicate ValidMembers(ms: Members) {
    match ms
    case NoMembers => true
    case Member(key, beforeColon, afterColon, value, before, after, rest) =>
      && ValidString(key) && Blank(beforeColon) && Blank(afterColon) && Valid(value)
      && Blank(before) && Blank(after) && ValidMembers(rest)
  }

  // What a tree spells

  function CharText(sc: StringChar): string {
    match sc
    case Plain(c) => [c]
    case Escape(c) => ['\\', c]
    case Unicode(hex) => "\\u" + hex
  }

  function CharsText(chars: seq<StringChar>): string {
    if chars == [] then "" else CharText(chars[0]) + CharsText(chars[1..])
  }

  function StringText(chars: seq<StringChar>): string { "\"" + CharsText(chars) + "\"" }

  function NumberText(n: Number): string {
    (if n.minus then "-" else "") + n.whole
    + (if n.fraction.Some? then "." + n.fraction.value else "")
    + if n.exponent.Some? then [n.exponent.value.e] + n.exponent.value.sign + n.exponent.value.digits else ""
  }

  function ValueText(v: Value): string {
    match v
    case Literal(name) => name
    case Num(number) => NumberText(number)
    case Str(chars) => StringText(chars)
    case Arr(open, elements, close) => "[" + (open + ElementsText(elements) + close) + "]"
    case Obj(open, members, close) => "{" + (open + MembersText(members) + close) + "}"
  }

  function ElementsText(es: Elements): string {
    match es
    case NoElements => ""
    case Element(value, before, after, rest) =>
      if rest.NoElements? then ValueText(value)
      else ValueText(value) + (before + "," + after) + ElementsText(rest)
  }

  function MembersText(ms: Members): string {
    match ms
    case NoMembers => ""
    case Member(key, beforeColon, afterColon, value, before, after, rest) =>
      var pair := StringText(key) + (beforeColon + ":" + afterColon) + ValueText(value);
      if rest.NoMembers? then pair else pair + (before + "," + after) + MembersText(rest)
  }
}
