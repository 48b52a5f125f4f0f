/** JSON texts, as RFC 8259 defines them: syntax trees that keep every character, white space
    included, so that `Text` of a well-formed tree ranges over exactly the texts of the grammar. */
module Json {
  import opened Wrappers

  /** RFC 8259, section 7: one `char` of a string. */
  datatype StringChar =
    | Unescaped(c: char)
    | Escape(c: char)
    | Unicode(hex: string)

  /** RFC 8259, section 6: the `exp` part of a number. */
  datatype Exponent = Exponent(mark: char, sign: string, digits: string)

  /** RFC 8259, section 3. */
  datatype Value =
    | Literal(word: string)
    | Number(minus: bool, whole: string, fraction: Option<string>, exponent: Option<Exponent>)
    | String(chars: seq<StringChar>)
    | Array(space: string, elements: Elements)
    | Object(space: string, members: Members)

  datatype Elements =
    | NoElements
    | Element(before: string, value: Value, after: string, rest: Elements)

  datatype Members =
    | NoMembers
    | Member(before: string, name: seq<StringChar>, afterName: string, beforeValue: string,
             value: Value, after: string, rest: Members)

  // ---- well-formed trees ------------------------------------------------------------------------

  predicate Space(s: string) {
    forall i :: 0 <= i < |s| ==> s[i] in [' ', '\t', '\n', '\r']
  }

  predicate Digits(s: string) {
    forall i :: 0 <= i < |s| ==> '0' <= s[i] <= '9'
  }

  predicate Hex(s: string) {
    forall i :: 0 <= i < |s| ==> '0' <= s[i] <= '9' || 'a' <= s[i] <= 'f' || 'A' <= s[i] <= 'F'
  }

  predicate GoodChar(c: StringChar) {
    match c
    case Unescaped(c) => c >= ' ' && c != '"' && c != '\\'
    case Escape(c) => c in ['"', '\\', '/', 'b', 'f', 'n', 'r', 't']
    case Unicode(hex) => |hex| == 4 && Hex(hex)
  }

  predicate GoodString(chars: seq<StringChar>) {
    forall i :: 0 <= i < |chars| ==> GoodChar(chars[i])
  }

  predicate GoodExponent(e: Exponent) {
    e.mark in ['e', 'E'] && e.sign in ["", "+", "-"] && e.digits != "" && Digits(e.digits)
  }

  predicate WellFormed(v: Value) {
    match v
    case Literal(word) => word in ["true", "false", "null"]
    case Number(_, whole, fraction, exponent) =>
      && whole != "" && Digits(whole) && (whole[0] == '0' ==> |whole| == 1)
      && (fraction.Some? ==> fraction.value != "" && Digits(fraction.value))
      && (exponent.Some? ==> GoodExponent(exponent.value))
    case String(chars) => GoodString(chars)
    case Array(space, elements) => Space(space) && WellFormedElements(elements)
    case Object(space, members) => Space(space) && WellFormedMembers(members)
  }

  predicate WellFormedElements(e: Elements) {
    match e
    case NoElements => true
    case Element(before, value, after, rest) =>
      Space(before) && WellFormed(value) && Space(after) && WellFormedElements(rest)
  }

  predicate WellFormedMembers(m: Members) {
    match m
    case NoMembers => true
    case Member(before, name, afterName, beforeValue, value, after, rest) =>
      && Space(before) && GoodString(name) && Space(afterName) && Space(beforeValue)
      && WellFormed(value) && Space(after) && WellFormedMembers(rest)
  }

  // ---- their texts ------------------------------------------------------------------------------

  function CharText(c: StringChar): string {
    match c
    case Unescaped(c) => [c]
    case Escape(c) => ['\\', c]
    case Unicode(hex) => "\\u" + hex
  }

  function CharsText(chars: seq<StringChar>): string {
    if chars == [] then "" else CharText(chars[0]) + CharsText(chars[1..])
  }

  function StringText(chars: seq<StringChar>): string {
    "\"" + (CharsText(chars) + "\"")
  }

  function NumberText(v: Value): string
    requires v.Number?
  {
    (if v.minus then "-" else "") + v.whole
    + (if v.fraction.Some? then "." + v.fraction.value else "")
    + (if v.exponent.Some?
       then [v.exponent.value.mark] + v.exponent.value.sign + v.exponent.value.digits else "")
  }

  function Text(v: Value): string {
    match v
    case Literal(word) => word
    case Number(_, _, _, _) => NumberText(v)
    case String(chars) => StringText(chars)
    case Array(space, elements) => "[" + (space + (ElementsText(elements) + "]"))
    case Object(space, members) => "{" + (space + (MembersText(members) + "}"))
  }

  function ElementsText(e: Elements): string {
    match e
    case NoElements => ""
    case Element(before, value, after, rest) =>
      before + (Text(value) + (after + ((if rest.NoElements? then "" else ",") + ElementsText(rest))))
  }

  function MembersText(m: Members): string {
    match m
    case NoMembers => ""
    case Member(before, name, afterName, beforeValue, value, after, rest) =>
      before + (StringText(name) + (afterName + (":" + (beforeValue
      + (Text(value) + (after + ((if rest.NoMembers? then "" else ",") + MembersText(rest))))))))
  }
}
