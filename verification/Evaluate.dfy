/** `src/harness/evaluate.rs`: finding the validator's verdict in whatever it printed. */
module Evaluate {
  import opened Wrappers
  import opened Text
  import Json

  // ---- the brace scanner ------------------------------------------------------------------------

  datatype Scan = Scan(depth: int, inString: bool, escape: bool)

  function At(depth: int): Scan {
    Scan(depth, false, false)
  }

  /** One byte of the scan. Outside ASCII no byte of UTF-8 is a quote, a brace or a backslash, so
      bytes and characters step alike. */
  function Step(s: Scan, c: char): Scan {
    if s.inString then
      if s.escape then s.(escape := false)
      else if c == '\\' then s.(escape := true)
      else if c == '"' then s.(inString := false)
      else s
    else if c == '"' then s.(inString := true)
    else if c == '{' then s.(depth := s.depth + 1)
    else if c == '}' then s.(depth := s.depth - 1)
    else s
  }

  predicate Closes(s: Scan, c: char) {
    !s.inString && c == '}' && s.depth == 1
  }

  function After(s: Scan, text: string): Scan
    decreases text
  {
    if text == [] then s else After(Step(s, text[0]), text[1..])
  }

  /** How many bytes up to and including the first brace that closes depth one. */
  function Close(s: Scan, text: string): Option<nat>
    decreases text
  {
    if text == [] then None
    else if Closes(s, text[0]) then Some(1)
    else match Close(Step(s, text[0]), text[1..])
      case None => None
      case Some(n) => Some(n + 1)
  }

  /** No byte of `text` closes depth one. */
  ghost predicate Open(s: Scan, text: string)
    decreases text
  {
    text != [] ==> !Closes(s, text[0]) && Open(Step(s, text[0]), text[1..])
  }

  lemma {:induction false} CloseThrough(s: Scan, text: string, rest: string)
    requires Open(s, text)
    ensures Close(s, text + rest) == match Close(After(s, text), rest)
                                     case None => None
                                     case Some(n) => Some(|text| + n)
    decreases text
  {
    if text == [] {
      assert text + rest == rest;
    } else {
      assert (text + rest)[1..] == text[1..] + rest;
      CloseThrough(Step(s, text[0]), text[1..], rest);
    }
  }

  lemma {:induction false} ScanConcat(s: Scan, a: string, b: string)
    ensures After(s, a + b) == After(After(s, a), b)
    ensures Open(s, a + b) <==> Open(s, a) && Open(After(s, a), b)
    decreases a
  {
    if a == [] {
      assert a + b == b;
    } else {
      assert (a + b)[1..] == a[1..] + b;
      ScanConcat(Step(s, a[0]), a[1..], b);
    }
  }

  /** `Close` stops at the first closing brace: everything before it leaves depth one open. */
  lemma {:induction false} CloseIsFirst(s: Scan, text: string)
    ensures match Close(s, text)
            case None => Open(s, text)
            case Some(n) =>
              && 1 <= n <= |text| && text[n - 1] == '}'
              && Open(s, text[..n - 1]) && Closes(After(s, text[..n - 1]), '}')
    decreases text
  {
    if text != [] && !Closes(s, text[0]) {
      CloseIsFirst(Step(s, text[0]), text[1..]);
      match Close(Step(s, text[0]), text[1..])
      case None =>
      case Some(n) =>
        assert text[..n][1..] == text[1..][..n - 1];
    }
  }

  /** `matching_brace`: the index of the byte that closes the object begun at `start`. */
  method MatchingBrace(bytes: string, start: nat) returns (r: Option<nat>)
    requires start <= |bytes|
    ensures r == match Close(At(0), bytes[start..])
                 case None => None
                 case Some(n) => Some(start + n - 1)
  {
    var depth, inString, escape := 0, false, false;
    var i := start;
    while i < |bytes|
      invariant start <= i <= |bytes|
      invariant Close(At(0), bytes[start..])
             == match Close(Scan(depth, inString, escape), bytes[i..])
                case None => None
                case Some(n) => Some(i - start + n)
    {
      var byte := bytes[i];
      assert bytes[i..][1..] == bytes[i + 1..];
      if inString {
        if escape {
          escape := false;
        } else if byte == '\\' {
          escape := true;
        } else if byte == '"' {
          inString := false;
        }
      } else if byte == '"' {
        inString := true;
      } else if byte == '{' {
        depth := depth + 1;
      } else if byte == '}' {
        depth := depth - 1;
        if depth == 0 {
          return Some(i);
        }
      }
      i := i + 1;
    }
    r := None;
  }

  /** The text from `start` to its closing brace, when the text at `start` is an object. */
  function ObjectAt(text: string, start: nat): Option<string>
    requires start <= |text|
  {
    if start == |text| || text[start] != '{' then None
    else match Close(At(0), text[start..])
      case None => None
      case Some(n) => CloseIsFirst(At(0), text[start..]); Some(text[start..start + n])
  }

  function ObjectsFrom(text: string, start: nat): seq<string>
    requires start <= |text|
    decreases |text| - start
  {
    if start == |text| then []
    else match ObjectAt(text, start)
      case None => ObjectsFrom(text, start + 1)
      case Some(found) => [found] + ObjectsFrom(text, start + 1)
  }

  /** `balanced_json_objects`. */
  method BalancedJsonObjects(text: string) returns (objects: seq<string>)
    ensures objects == ObjectsFrom(text, 0)
  {
    objects := [];
    for start := 0 to |text|
      invariant objects + ObjectsFrom(text, start) == ObjectsFrom(text, 0)
    {
      if text[start] == '{' {
        var end := MatchingBrace(text, start);
        CloseIsFirst(At(0), text[start..]);
        if end.Some? {
          objects := objects + [text[start..end.value + 1]];
        }
      }
    }
  }

  /** Which texts are listed: exactly those of the positions that hold a balanced object. */
  lemma {:induction false} ObjectsFromAreAll(text: string, start: nat, span: string)
    requires start <= |text|
    ensures span in ObjectsFrom(text, start)
            <==> exists i :: start <= i <= |text| && ObjectAt(text, i) == Some(span)
    decreases |text| - start
  {
    if start < |text| {
      ObjectsFromAreAll(text, start + 1, span);
      if ObjectAt(text, start) == Some(span) {
        assert span in ObjectsFrom(text, start);
      }
    }
  }

  // ---- against the JSON grammar -----------------------------------------------------------------

  /** Scanning `text` at this depth comes back to the same depth and closes nothing on the way. */
  ghost predicate Neutral(text: string, depth: int) {
    Open(At(depth), text) && After(At(depth), text) == At(depth)
  }

  lemma NeutralConcat(a: string, b: string, depth: int)
    requires Neutral(a, depth) && Neutral(b, depth)
    ensures Neutral(a + b, depth)
  {
    ScanConcat(At(depth), a, b);
  }

  /** Text without quotes and braces. */
  lemma {:induction false} PlainIsNeutral(text: string, depth: int)
    requires forall i :: 0 <= i < |text| ==> text[i] !in ['"', '{', '}']
    ensures Neutral(text, depth)
  {
    if text != [] {
      assert text[0] !in ['"', '{', '}'];
      PlainIsNeutral(text[1..], depth);
    }
  }

  /** Inside a string nothing closes, and each `char` of the grammar leaves the scan ready for the
      next one. */
  lemma {:induction false} HexInString(text: string, depth: int)
    requires Json.Hex(text)
    ensures var s := Scan(depth, true, false); Open(s, text) && After(s, text) == s
  {
    if text != [] { HexInString(text[1..], depth); }
  }

  lemma CharInString(c: Json.StringChar, depth: int)
    requires Json.GoodChar(c)
    ensures var s := Scan(depth, true, false);
            Open(s, Json.CharText(c)) && After(s, Json.CharText(c)) == s
  {
    var s := Scan(depth, true, false);
    match c
    case Unescaped(ch) =>
      assert [ch][1..] == [];
    case Escape(ch) =>
      var text := ['\\', ch];
      assert text[1..] == [ch] && [ch][1..] == [];
      assert After(s.(escape := true), [ch]) == s;
    case Unicode(hex) =>
      var text := "\\u" + hex;
      assert text[1..] == ['u'] + hex && (['u'] + hex)[1..] == hex;
      HexInString(hex, depth);
      assert Step(s.(escape := true), 'u') == s;
  }

  lemma {:induction false} CharsInString(chars: seq<Json.StringChar>, depth: int)
    requires Json.GoodString(chars)
    ensures var s := Scan(depth, true, false);
            Open(s, Json.CharsText(chars)) && After(s, Json.CharsText(chars)) == s
  {
    if chars != [] {
      CharInString(chars[0], depth);
      CharsInString(chars[1..], depth);
      ScanConcat(Scan(depth, true, false), Json.CharText(chars[0]), Json.CharsText(chars[1..]));
    }
  }

  lemma StringIsNeutral(chars: seq<Json.StringChar>, depth: int)
    requires Json.GoodString(chars)
    ensures Neutral(Json.StringText(chars), depth)
  {
    var s := Scan(depth, true, false);
    CharsInString(chars, depth);
    ScanConcat(s, Json.CharsText(chars), "\"");
    assert "\""[1..] == "";
    var tail := Json.CharsText(chars) + "\"";
    assert Json.StringText(chars)[1..] == tail;
    assert After(s, tail) == At(depth) && Open(s, tail);
  }

  lemma {:induction false} ValueIsNeutral(v: Json.Value, depth: int)
    requires Json.WellFormed(v) && depth >= 1
    ensures Neutral(Json.Text(v), depth)
  {
    match v
    case Literal(word) => PlainIsNeutral(word, depth);
    case Number(_, _, _, _) => NumberIsNeutral(v, depth);
    case String(chars) => StringIsNeutral(chars, depth);
    case Array(space, elements) =>
      ElementsAreNeutral(elements, depth);
      BracketsAround(space, Json.ElementsText(elements), depth);
    case Object(space, members) =>
      MembersAreNeutral(members, depth + 1);
      BracesAround(space, Json.MembersText(members), depth);
  }

  lemma NumberIsNeutral(v: Json.Value, depth: int)
    requires Json.WellFormed(v) && v.Number?
    ensures Neutral(Json.Text(v), depth)
  {
    PlainIsNeutral(Json.Text(v), depth);
  }

  lemma BracketsAround(space: string, body: string, depth: int)
    requires Json.Space(space) && Neutral(body, depth)
    ensures Neutral("[" + (space + (body + "]")), depth)
  {
    PlainIsNeutral("[", depth);
    PlainIsNeutral(space, depth);
    PlainIsNeutral("]", depth);
    NeutralConcat(body, "]", depth);
    NeutralConcat(space, body + "]", depth);
    NeutralConcat("[", space + (body + "]"), depth);
  }

  lemma BracesAround(space: string, body: string, depth: int)
    requires Json.Space(space) && Neutral(body, depth + 1) && depth >= 1
    ensures Neutral("{" + (space + (body + "}")), depth)
  {
    PlainIsNeutral(space, depth + 1);
    NeutralConcat(space, body, depth + 1);
    var inner := space + body;
    var text := "{" + (space + (body + "}"));
    assert text[1..] == inner + "}" && "}"[1..] == "";
    ScanConcat(At(depth + 1), inner, "}");
    assert Step(At(depth), '{') == At(depth + 1);
    assert After(At(depth + 1), "}") == At(depth) && Open(At(depth + 1), "}");
  }

  lemma {:induction false} ElementsAreNeutral(e: Json.Elements, depth: int)
    requires Json.WellFormedElements(e) && depth >= 1
    ensures Neutral(Json.ElementsText(e), depth)
  {
    match e
    case NoElements =>
    case Element(before, value, after, rest) =>
      var comma := if rest.NoElements? then "" else ",";
      PlainIsNeutral(before, depth);
      PlainIsNeutral(after, depth);
      PlainIsNeutral(comma, depth);
      ValueIsNeutral(value, depth);
      ElementsAreNeutral(rest, depth);
      var t3 := comma + Json.ElementsText(rest);
      NeutralConcat(comma, Json.ElementsText(rest), depth);
      NeutralConcat(after, t3, depth);
      NeutralConcat(Json.Text(value), after + t3, depth);
      NeutralConcat(before, Json.Text(value) + (after + t3), depth);
  }

  lemma {:induction false} MembersAreNeutral(m: Json.Members, depth: int)
    requires Json.WellFormedMembers(m) && depth >= 1
    ensures Neutral(Json.MembersText(m), depth)
  {
    hide Neutral, Json.Text, Json.StringText, Json.WellFormed, Json.GoodString;
    match m
    case NoMembers =>
      PlainIsNeutral("", depth);
    case Member(before, name, afterName, beforeValue, value, after, rest) =>
      var comma := if rest.NoMembers? then "" else ",";
      PlainIsNeutral(before, depth);
      PlainIsNeutral(afterName, depth);
      PlainIsNeutral(":", depth);
      PlainIsNeutral(beforeValue, depth);
      PlainIsNeutral(after, depth);
      PlainIsNeutral(comma, depth);
      StringIsNeutral(name, depth);
      ValueIsNeutral(value, depth);
      MembersAreNeutral(rest, depth);
      var t7 := comma + Json.MembersText(rest);
      NeutralConcat(comma, Json.MembersText(rest), depth);
      var t6 := after + t7;
      NeutralConcat(after, t7, depth);
      var t5 := Json.Text(value) + t6;
      NeutralConcat(Json.Text(value), t6, depth);
      var t4 := beforeValue + t5;
      NeutralConcat(beforeValue, t5, depth);
      var t3 := ":" + t4;
      NeutralConcat(":", t4, depth);
      var t2 := afterName + t3;
      NeutralConcat(afterName, t3, depth);
      NeutralConcat(Json.StringText(name), t2, depth);
      NeutralConcat(before, Json.StringText(name) + t2, depth);
  }

  lemma BracedCloses(body: string, suffix: string)
    requires Neutral(body, 1)
    ensures Close(At(0), "{" + (body + ("}" + suffix))) == Some(|body| + 2)
  {
    var text := "{" + (body + ("}" + suffix));
    assert text[0] == '{' && text[1..] == body + ("}" + suffix);
    CloseThrough(At(1), body, "}" + suffix);
    assert ("}" + suffix)[0] == '}';
    assert Close(At(1), "}" + suffix) == Some(1);
  }

  /** From the first byte of any JSON object, whatever follows it, the scan closes exactly on the
      object's last byte. */
  lemma ObjectCloses(obj: Json.Value, suffix: string)
    requires obj.Object? && Json.WellFormed(obj)
    ensures Close(At(0), Json.Text(obj) + suffix) == Some(|Json.Text(obj)|)
  {
    hide Close, Open, After, Json.MembersText, Json.WellFormedMembers;
    var space, members := obj.space, Json.MembersText(obj.members);
    PlainIsNeutral(space, 1);
    MembersAreNeutral(obj.members, 1);
    NeutralConcat(space, members, 1);
    BracedCloses(space + members, suffix);
    assert Json.Text(obj) == "{" + (space + (members + "}"));
    assert Json.Text(obj) + suffix == "{" + ((space + members) + ("}" + suffix));
  }

  /** Every JSON object in a text is found whole, whatever stands around it, and no span from its
      first byte that is shorter closes. */
  lemma ObjectIsFound(prefix: string, obj: Json.Value, suffix: string)
    requires obj.Object? && Json.WellFormed(obj)
    ensures var o := Json.Text(obj);
            && ObjectAt(prefix + o + suffix, |prefix|) == Some(o)
            && o in ObjectsFrom(prefix + o + suffix, 0)
            && forall n :: 0 <= n < |o| ==> Close(At(0), o[..n]) == None
  {
    hide Close, ObjectsFrom;
    var o := Json.Text(obj);
    var text := prefix + o + suffix;
    ObjectCloses(obj, suffix);
    assert text[|prefix|..] == o + suffix;
    assert text[|prefix|..|prefix| + |o|] == o;
    ObjectsFromAreAll(text, 0, o);
    forall n | 0 <= n < |o| ensures Close(At(0), o[..n]) == None {
      assert o[..n] + o[n..] == o;
      CloseIsFirst(At(0), o[..n]);
      ObjectCloses(obj, "");
      assert o + "" == o;
      if Close(At(0), o[..n]).Some? {
        ClosePrefix(At(0), o[..n], o[n..]);
      }
    }
  }

  lemma {:induction false} ClosePrefix(s: Scan, text: string, rest: string)
    requires Close(s, text).Some?
    ensures Close(s, text + rest) == Close(s, text)
    decreases text
  {
    assert (text + rest)[1..] == text[1..] + rest;
    if !Closes(s, text[0]) {
      ClosePrefix(Step(s, text[0]), text[1..], rest);
    }
  }

  /** Depth moves by one a byte, so no text shorter than 2^31 bytes overflows the `i32` counter. */
  lemma {:induction false} DepthFitsCounter(s: Scan, text: string)
    ensures s.depth - |text| <= After(s, text).depth <= s.depth + |text|
    decreases text
  {
    if text != [] { DepthFitsCounter(Step(s, text[0]), text[1..]); }
  }

  // ---- from stdout to a verdict -----------------------------------------------------------------

  /** The first candidate that parses. */
  function FirstVerdict<V>(candidates: seq<string>, parse: string -> Option<V>): Option<V> {
    if candidates == [] then None
    else if parse(candidates[0]).Some? then parse(candidates[0])
    else FirstVerdict(candidates[1..], parse)
  }

  lemma {:induction false} FirstVerdictIsFirst<V>(candidates: seq<string>, parse: string -> Option<V>)
    ensures match FirstVerdict(candidates, parse)
            case None => forall c <- candidates :: parse(c).None?
            case Some(v) => exists i :: 0 <= i < |candidates| && parse(candidates[i]) == Some(v)
                                        && forall j :: 0 <= j < i ==> parse(candidates[j]).None?
  {
    if candidates != [] && parse(candidates[0]).None? {
      FirstVerdictIsFirst(candidates[1..], parse);
      match FirstVerdict(candidates[1..], parse)
      case None =>
        forall c | c in candidates ensures parse(c).None? {
          assert c == candidates[0] || c in candidates[1..];
        }
      case Some(v) =>
        var i :| 0 <= i < |candidates[1..]| && parse(candidates[1..][i]) == Some(v)
                 && forall j :: 0 <= j < i ==> parse(candidates[1..][j]).None?;
        assert parse(candidates[i + 1]) == Some(v);
        forall j | 0 <= j < i + 1 ensures parse(candidates[j]).None? {
          if j > 0 { assert candidates[1..][j - 1] == candidates[j]; }
        }
    }
  }

  function LowerAscii(s: string): string {
    seq(|s|, i requires 0 <= i < |s| =>
      if 'A' <= s[i] <= 'Z' then (s[i] as int - 'A' as int + 'a' as int) as char else s[i])
  }

  const FENCE := "```"

  function FencedBody(after: string): (body: string)
    ensures |body| <= |after|
  {
    if StartsWith(LowerAscii(after), "json") then after[4..] else after
  }

  /** The first fenced block and what follows it. */
  function NextFenced(rest: string): (r: Option<(string, string)>)
    ensures r.Some? ==> |r.value.1| < |rest|
  {
    match Find(rest, FENCE)
    case None => None
    case Some(open) =>
      var body := FencedBody(rest[open + 3..]);
      match Find(body, FENCE)
      case None => None
      case Some(close) => Some((Trim(body[..close]), body[close + 3..]))
  }

  /** What stands between each pair of fences, the word `json` after the opening one skipped. */
  function FencedFrom(rest: string): seq<string>
    decreases |rest|
  {
    match NextFenced(rest)
    case None => []
    case Some((block, later)) => [block] + FencedFrom(later)
  }

  /** `fenced_json_blocks`. */
  method FencedJsonBlocks(text: string) returns (blocks: seq<string>)
    ensures blocks == FencedFrom(text)
  {
    blocks := [];
    var rest := text;
    ghost var ahead := FencedFrom(rest);
    var next := NextFenced(rest);
    while next.Some?
      invariant ahead == FencedFrom(rest) && next == NextFenced(rest)
      invariant blocks + ahead == FencedFrom(text)
      decreases |rest|
    {
      blocks := blocks + [next.value.0];
      rest, ahead := next.value.1, ahead[1..];
      next := NextFenced(rest);
    }
  }

  // ---- what counts as a fenced block -------------------------------------------------------------

  /** A text read by its fences: prose, and blocks that are each opened, perhaps tagged, and closed;
      last perhaps a fence that nothing closes. */
  datatype Fenced =
    | NoFence(prose: string)
    | Unclosed(prose: string, tag: string, text: string)
    | Block(prose: string, tag: string, body: string, rest: Fenced)

  function FencedText(f: Fenced): string {
    match f
    case NoFence(prose) => prose
    case Unclosed(prose, tag, text) => prose + (FENCE + (tag + text))
    case Block(prose, tag, body, rest) => prose + (FENCE + (tag + (body + (FENCE + FencedText(rest)))))
  }

  ghost predicate HasNoFence(s: string) {
    forall i: nat :: !MatchesAt(s, FENCE, i)
  }

  /** The fence put after `s` is the first one. */
  ghost predicate EndsBeforeFence(s: string) {
    forall i: nat :: i < |s| ==> !MatchesAt(s + FENCE, FENCE, i)
  }

  /** Any spelling of `json`, or nothing when the text does not itself begin with one. */
  predicate Tagged(tag: string, text: string) {
    SpellsJson(tag) || (tag == "" && (|text| < 4 || !SpellsJson(text[..4])))
  }

  predicate SpellsJson(tag: string) {
    |tag| == 4 && tag[0] in "jJ" && tag[1] in "sS" && tag[2] in "oO" && tag[3] in "nN"
  }

  lemma LowerIsJson(text: string)
    ensures StartsWith(LowerAscii(text), "json") <==> |text| >= 4 && SpellsJson(text[..4])
    ensures |text| >= 4 ==> LowerAscii(text)[..4] == LowerAscii(text[..4])
  {
    if |text| >= 4 {
      var lower := LowerAscii(text);
      assert lower[..4] == [lower[0], lower[1], lower[2], lower[3]];
    }
  }

  ghost predicate ProperlyFenced(f: Fenced) {
    match f
    case NoFence(prose) => HasNoFence(prose)
    case Unclosed(prose, tag, text) => EndsBeforeFence(prose) && Tagged(tag, text) && HasNoFence(text)
    case Block(prose, tag, body, rest) =>
      EndsBeforeFence(prose) && Tagged(tag, body) && EndsBeforeFence(body) && ProperlyFenced(rest)
  }

  function Blocks(f: Fenced): seq<string> {
    if f.Block? then [Trim(f.body)] + Blocks(f.rest) else []
  }

  lemma NothingFound(s: string)
    ensures HasNoFence(s) <==> Find(s, FENCE) == None
  {
    FindIsFirst(s, FENCE, 0);
    if Find(s, FENCE) == None {
      forall i: nat ensures !MatchesAt(s, FENCE, i) {
        if i <= |s| { assert 0 <= i <= |s|; }
      }
    }
  }

  lemma SameBefore(first: string, later: string)
    ensures EndsBeforeFence(first)
            <==> forall i: nat :: i < |first| ==> !MatchesAt(first + (FENCE + later), FENCE, i)
  {
    assert first + (FENCE + later) == (first + FENCE) + later;
    forall i: nat | i < |first|
      ensures MatchesAt(first + (FENCE + later), FENCE, i) <==> MatchesAt(first + FENCE, FENCE, i)
    {
      MatchInFirst(first + FENCE, later, FENCE, i);
    }
  }

  lemma FoundAfter(first: string, later: string)
    requires EndsBeforeFence(first)
    ensures Find(first + (FENCE + later), FENCE) == Some(|first|)
    ensures (first + (FENCE + later))[..|first|] == first && (first + (FENCE + later))[|first| + 3..] == later
  {
    var s := first + (FENCE + later);
    FindIsFirst(s, FENCE, 0);
    SameBefore(first, later);
    assert MatchesAt(s, FENCE, |first|);
  }

  lemma FoundOnlyAfter(s: string, n: nat)
    requires Find(s, FENCE) == Some(n)
    ensures n + 3 <= |s| && s == s[..n] + (FENCE + s[n + 3..]) && EndsBeforeFence(s[..n])
  {
    FindIsFirst(s, FENCE, 0);
    assert s == s[..n] + (s[n..n + 3] + s[n + 3..]);
    SameBefore(s[..n], s[n + 3..]);
  }

  lemma BodyAfterTag(tag: string, text: string)
    requires Tagged(tag, text)
    ensures FencedBody(tag + text) == text
  {
    LowerIsJson(tag + text);
    if tag == "" {
      assert tag + text == text;
    } else {
      assert (tag + text)[..4] == tag;
    }
  }

  lemma StillTagged(tag: string, body: string, later: string)
    requires Tagged(tag, body)
    ensures Tagged(tag, body + (FENCE + later))
  {
    var text := body + (FENCE + later);
    if |body| < 4 {
      assert text[|body|] == '`';
    } else {
      assert text[..4] == body[..4];
    }
  }

  lemma BlockIsNext(prose: string, tag: string, body: string, later: string)
    requires EndsBeforeFence(prose) && Tagged(tag, body) && EndsBeforeFence(body)
    ensures NextFenced(prose + (FENCE + (tag + (body + (FENCE + later))))) == Some((Trim(body), later))
  {
    var after := body + (FENCE + later);
    FoundAfter(prose, tag + after);
    StillTagged(tag, body, later);
    BodyAfterTag(tag, after);
    FoundAfter(body, later);
    hide Find, FencedBody, Trim, EndsBeforeFence, Tagged;
  }

  lemma NothingIsNext(prose: string, tag: string, text: string)
    requires EndsBeforeFence(prose) && Tagged(tag, text) && HasNoFence(text)
    ensures NextFenced(prose + (FENCE + (tag + text))) == None
  {
    FoundAfter(prose, tag + text);
    BodyAfterTag(tag, text);
    NothingFound(text);
    hide Find, FencedBody, Trim, EndsBeforeFence, Tagged;
  }

  /** Whatever stands in and around them, exactly the closed blocks are listed, in order. */
  lemma {:induction false} BlocksAreListed(f: Fenced)
    requires ProperlyFenced(f)
    ensures FencedFrom(FencedText(f)) == Blocks(f)
  {
    hide NextFenced, HasNoFence, EndsBeforeFence, Tagged, Trim;
    match f
    case NoFence(prose) =>
      NothingFound(prose);
      assert NextFenced(prose) == None by { NoneIsNext(prose); }
    case Unclosed(prose, tag, text) =>
      NothingIsNext(prose, tag, text);
    case Block(prose, tag, body, rest) =>
      BlockIsNext(prose, tag, body, FencedText(rest));
      BlocksAreListed(rest);
  }

  lemma NoneIsNext(text: string)
    requires Find(text, FENCE) == None
    ensures NextFenced(text) == None
  {
  }

  /** Every text is one of these, so `BlocksAreListed` says what is listed of any text. */
  lemma {:induction false} EveryTextIsFenced(text: string) returns (f: Fenced)
    ensures FencedText(f) == text && ProperlyFenced(f)
    decreases |text|
  {
    NothingFound(text);
    match Find(text, FENCE)
    case None =>
      f := NoFence(text);
    case Some(n) =>
      var prose, after := text[..n], text[n + 3..];
      FoundOnlyAfter(text, n);
      var tag, body := TagOf(after);
      NothingFound(body);
      match Find(body, FENCE) {
        case None =>
          f := Unclosed(prose, tag, body);
        case Some(m) =>
          FoundOnlyAfter(body, m);
          var rest := EveryTextIsFenced(body[m + 3..]);
          TagOfPart(tag, body, m);
          f := Block(prose, tag, body[..m], rest);
      }
  }

  lemma TagOf(after: string) returns (tag: string, body: string)
    ensures after == tag + body && Tagged(tag, body) && body == FencedBody(after)
  {
    LowerIsJson(after);
    if StartsWith(LowerAscii(after), "json") {
      tag, body := after[..4], after[4..];
    } else {
      tag, body := "", after;
    }
  }

  lemma TagOfPart(tag: string, body: string, m: nat)
    requires Tagged(tag, body) && m <= |body|
    ensures Tagged(tag, body[..m])
  {
    if m >= 4 { assert body[..m][..4] == body[..4]; }
  }

  // ---- the candidates ----------------------------------------------------------------------------

  /** `try_parse_verdict`: the whole text, then its fenced blocks, then its balanced objects. */
  function TryParseVerdict<V>(text: string, parse: string -> Option<V>): Option<V> {
    var trimmed := Trim(text);
    if trimmed == [] then None
    else if parse(trimmed).Some? then parse(trimmed)
    else
      var fenced := FirstVerdict(FencedFrom(trimmed), parse);
      if fenced.Some? then fenced else FirstVerdict(ObjectsFrom(trimmed, 0), parse)
  }

  function Lines(text: string): seq<string>
    decreases |text|
  {
    match Find(text, "\n")
    case None => [text]
    case Some(n) => [text[..n]] + Lines(text[n + 1..])
  }

  /** The `result` strings of the stream-json events among the lines. */
  function ResultTexts(lines: seq<string>, resultOf: string -> Option<string>): seq<string> {
    if lines == [] then []
    else
      var line := Trim(lines[0]);
      var rest := ResultTexts(lines[1..], resultOf);
      if line != [] && resultOf(line).Some? then [resultOf(line).value] + rest else rest
  }

  function Joined(lines: seq<string>): string {
    if lines == [] then ""
    else if |lines| == 1 then lines[0]
    else lines[0] + "\n" + Joined(lines[1..])
  }

  lemma {:induction false} LinesPart(text: string)
    ensures Lines(text) != [] && Joined(Lines(text)) == text
    ensures forall line <- Lines(text) :: '\n' !in line
    decreases |text|
  {
    FindIsFirst(text, "\n", 0);
    match Find(text, "\n")
    case None =>
      forall i | 0 <= i < |text| ensures text[i] != '\n' { assert !MatchesAt(text, "\n", i); }
    case Some(n) =>
      LinesPart(text[n + 1..]);
      assert MatchesAt(text, "\n", n) && text[n..n + 1] == "\n";
      assert text == text[..n] + "\n" + text[n + 1..];
      forall i | 0 <= i < n ensures text[i] != '\n' { assert !MatchesAt(text, "\n", i); }
  }

  lemma {:induction false} JoinedApart(a: seq<string>, b: seq<string>)
    requires a != [] && b != [] && Joined(a) == Joined(b)
    requires forall line <- a + b :: '\n' !in line
    ensures a == b
  {
    assert a[0] in a + b && b[0] in a + b;
    FirstLine(a);
    FirstLine(b);
    assert |a| > 1 <==> |b| > 1;
    if |a| > 1 {
      SameFirstLine(a[0], Joined(a[1..]), b[0], Joined(b[1..]));
      forall line | line in a[1..] + b[1..] ensures '\n' !in line { assert line in a + b; }
      JoinedApart(a[1..], b[1..]);
      assert a == [a[0]] + a[1..] && b == [b[0]] + b[1..];
    } else {
      assert a == [a[0]] && b == [b[0]];
    }
  }

  lemma SameFirstLine(a: string, more: string, b: string, rest: string)
    requires '\n' !in a && '\n' !in b && a + "\n" + more == b + "\n" + rest
    ensures a == b && more == rest
  {
    var x, y := a + "\n" + more, b + "\n" + rest;
    assert x[|a|] == '\n' && y[|b|] == '\n';
    assert forall i :: 0 <= i < |a| ==> x[i] == a[i];
    assert forall i :: 0 <= i < |b| ==> y[i] == b[i];
    assert |a| == |b|;
    assert x[..|a|] == a && y[..|b|] == b && x[|a| + 1..] == more && y[|b| + 1..] == rest;
  }

  lemma FirstLine(a: seq<string>)
    requires a != []
    ensures Joined(a) == if |a| == 1 then a[0] else a[0] + "\n" + Joined(a[1..])
    ensures |a| > 1 ==> |Joined(a)| > |a[0]| && Joined(a)[|a[0]|] == '\n'
    ensures '\n' !in a[0] ==> ('\n' in Joined(a) <==> |a| > 1)
  {
  }

  /** The lines of a text are the newline-free pieces that joined give the text, and nothing else is. */
  lemma LinesAreExact(text: string, lines: seq<string>)
    ensures lines == Lines(text)
            <==> lines != [] && Joined(lines) == text && forall line <- lines :: '\n' !in line
  {
    LinesPart(text);
    if lines != [] && Joined(lines) == text && forall line <- lines :: '\n' !in line {
      JoinedApart(lines, Lines(text));
    }
  }

  /** Results are taken line by line, in order: none of a blank line or one that is no event. */
  lemma {:induction false} ResultsAreInOrder(a: seq<string>, line: string, b: seq<string>,
                                             resultOf: string -> Option<string>)
    ensures ResultTexts(a + [line] + b, resultOf)
         == ResultTexts(a, resultOf)
          + (if Trim(line) == "" || resultOf(Trim(line)).None? then [] else [resultOf(Trim(line)).value])
          + ResultTexts(b, resultOf)
    ensures ResultTexts([], resultOf) == []
  {
    hide Trim;
    if a == [] {
      assert ([] + [line] + b)[1..] == b && ([] + [line] + b)[0] == line;
    } else {
      assert (a + [line] + b)[1..] == a[1..] + [line] + b;
      ResultsAreInOrder(a[1..], line, b, resultOf);
    }
  }

  /** `parse_verdict`: every event's `result` in turn, then the raw text. */
  function ParseVerdict<V>(stdout: string, resultOf: string -> Option<string>,
                           parse: string -> Option<V>): Option<V>
  {
    FirstVerdict(ResultTexts(Lines(stdout), resultOf) + [stdout],
                 (candidate: string) => TryParseVerdict(candidate, parse))
  }

  /** What `try_parse_verdict` tries of a text, in order. */
  function Candidates(text: string): seq<string> {
    var trimmed := Trim(text);
    if trimmed == [] then [] else [trimmed] + FencedFrom(trimmed) + ObjectsFrom(trimmed, 0)
  }

  function AllCandidates(texts: seq<string>): seq<string> {
    if texts == [] then [] else Candidates(texts[0]) + AllCandidates(texts[1..])
  }

  lemma {:induction false} FirstOfBoth<V>(a: seq<string>, b: seq<string>, parse: string -> Option<V>)
    ensures FirstVerdict(a + b, parse)
         == if FirstVerdict(a, parse).Some? then FirstVerdict(a, parse) else FirstVerdict(b, parse)
  {
    if a == [] {
      assert a + b == b;
    } else {
      assert (a + b)[1..] == a[1..] + b;
      FirstOfBoth(a[1..], b, parse);
    }
  }

  lemma TryIsFirst<V>(text: string, parse: string -> Option<V>)
    ensures TryParseVerdict(text, parse) == FirstVerdict(Candidates(text), parse)
  {
    var trimmed := Trim(text);
    if trimmed != [] {
      var fenced, objects := FencedFrom(trimmed), ObjectsFrom(trimmed, 0);
      assert [trimmed][1..] == [];
      FirstOfBoth([trimmed], fenced, parse);
      FirstOfBoth([trimmed] + fenced, objects, parse);
      hide FencedFrom, ObjectsFrom;
    }
  }

  lemma {:induction false} FirstOfAll<V>(texts: seq<string>, parse: string -> Option<V>)
    ensures FirstVerdict(texts, (text: string) => TryParseVerdict(text, parse))
         == FirstVerdict(AllCandidates(texts), parse)
  {
    if texts != [] {
      hide TryParseVerdict, Candidates;
      TryIsFirst(texts[0], parse);
      FirstOfBoth(Candidates(texts[0]), AllCandidates(texts[1..]), parse);
      FirstOfAll(texts[1..], parse);
    }
  }

  function StdoutCandidates(stdout: string, resultOf: string -> Option<string>): seq<string> {
    AllCandidates(ResultTexts(Lines(stdout), resultOf) + [stdout])
  }

  /** The verdict of a run is the first of all its candidates that parses. */
  lemma ParseVerdictIsFirst<V>(stdout: string, resultOf: string -> Option<string>, parse: string -> Option<V>)
    ensures ParseVerdict(stdout, resultOf, parse) == FirstVerdict(StdoutCandidates(stdout, resultOf), parse)
  {
    FirstOfAll(ResultTexts(Lines(stdout), resultOf) + [stdout], parse);
  }

  /** An object is a candidate of the text it stands in, whatever stands around it. */
  lemma ObjectIsCandidate(prefix: string, obj: Json.Value, suffix: string)
    requires obj.Object? && Json.WellFormed(obj)
    ensures Json.Text(obj) in Candidates(prefix + Json.Text(obj) + suffix)
  {
    var o := Json.Text(obj);
    assert o[0] == '{' && o[|o| - 1] == '}';
    var before, after := TrimKeeps(prefix, o, suffix);
    ObjectIsFound(before, obj, after);
    hide FencedFrom, ObjectsFrom, Json.Text;
  }

  lemma {:induction false} ResultTextIsListed(lines: seq<string>, line: string,
                                              resultOf: string -> Option<string>)
    requires line in lines && Trim(line) != [] && resultOf(Trim(line)).Some?
    ensures resultOf(Trim(line)).value in ResultTexts(lines, resultOf)
  {
    if lines[0] != line {
      ResultTextIsListed(lines[1..], line, resultOf);
    }
  }

  lemma {:induction false} CandidateOfAll(texts: seq<string>, text: string, candidate: string)
    requires text in texts && candidate in Candidates(text)
    ensures candidate in AllCandidates(texts)
  {
    hide Candidates;
    if texts[0] != text { CandidateOfAll(texts[1..], text, candidate); }
  }

  lemma {:induction false} FirstWithin<V>(candidates: seq<string>, k: nat, parse: string -> Option<V>)
    requires k < |candidates| && parse(candidates[k]).Some?
    ensures FirstVerdict(candidates, parse) == FirstVerdict(candidates[..k + 1], parse)
    ensures FirstVerdict(candidates, parse).Some?
    ensures (forall j :: 0 <= j < k ==> parse(candidates[j]).None?) ==>
              FirstVerdict(candidates, parse) == parse(candidates[k])
  {
    if k > 0 && parse(candidates[0]).None? {
      var rest := candidates[1..];
      FirstWithin(rest, k - 1, parse);
      assert candidates[..k + 1][1..] == rest[..k];
      assert forall j :: 0 <= j < k - 1 ==> rest[j] == candidates[j + 1];
    }
  }

  /** Printed raw, or inside the `result` of any event line, a verdict object is candidate `at` of the
      run: the run's verdict is the first that parses of the candidates up to it, so it is the printed
      one itself when none before it parses. */
  lemma PrintedVerdictIsParsed<V>(stdout: string, text: string, prefix: string, obj: Json.Value,
                                  suffix: string, resultOf: string -> Option<string>,
                                  parse: string -> Option<V>) returns (at: nat)
    requires obj.Object? && Json.WellFormed(obj) && parse(Json.Text(obj)).Some?
    requires text == prefix + Json.Text(obj) + suffix
    requires text == stdout
             || exists line <- Lines(stdout) :: Trim(line) != [] && resultOf(Trim(line)) == Some(text)
    ensures var candidates := StdoutCandidates(stdout, resultOf);
            && at < |candidates| && candidates[at] == Json.Text(obj)
            && ParseVerdict(stdout, resultOf, parse) == FirstVerdict(candidates[..at + 1], parse)
            && ParseVerdict(stdout, resultOf, parse).Some?
            && ((forall j :: 0 <= j < at ==> parse(candidates[j]).None?) ==>
                  ParseVerdict(stdout, resultOf, parse) == parse(Json.Text(obj)))
  {
    var texts := ResultTexts(Lines(stdout), resultOf) + [stdout];
    if text != stdout {
      var line :| line in Lines(stdout) && Trim(line) != [] && resultOf(Trim(line)) == Some(text);
      ResultTextIsListed(Lines(stdout), line, resultOf);
    }
    assert text in texts;
    ObjectIsCandidate(prefix, obj, suffix);
    CandidateOfAll(texts, text, Json.Text(obj));
    var candidates := StdoutCandidates(stdout, resultOf);
    at :| 0 <= at < |candidates| && candidates[at] == Json.Text(obj);
    FirstWithin(candidates, at, parse);
    ParseVerdictIsFirst(stdout, resultOf, parse);
    hide ParseVerdict, AllCandidates, Json.Text, FirstVerdict;
  }
}
