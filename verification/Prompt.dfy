/** `src/harness/prompt.rs`: the mustache subset that prompts are written in. The renderer rewrites
    text, innermost section first; its meaning is a recursive walk over the section tree. */
module Prompt {
  import opened Wrappers
  import opened Text

  datatype Var = Words(text: string) | Flag(on: bool)

  type Vars = map<string, Var>

  /** `is_truthy`. */
  predicate Truthy(v: Var) {
    match v
    case Flag(on) => on
    case Words(text) => Trim(text) != ""
  }

  /** Whether a section's body stays: `#` needs a truthy variable, `^` anything else. */
  predicate Keeps(kind: char, name: string, vars: Vars) {
    var truthy := name in vars && Truthy(vars[name]);
    if kind == '#' then truthy else !truthy
  }

  predicate WordChar(c: char) {
    'a' <= c <= 'z' || 'A' <= c <= 'Z' || '0' <= c <= '9' || c == '_'
  }

  predicate Word(s: string) {
    s != "" && forall i :: 0 <= i < |s| ==> WordChar(s[i])
  }

  // ---- section tags in text ---------------------------------------------------------------------

  datatype Tag = Tag(start: nat, end: nat, kind: char, name: string)

  function WordEnd(text: string, i: nat): (j: nat)
    requires i <= |text|
    ensures i <= j <= |text|
    decreases |text| - i
  {
    if i < |text| && WordChar(text[i]) then WordEnd(text, i + 1) else i
  }

  predicate TagStarts(text: string, i: nat) {
    i + 2 < |text| && text[i] == '{' && text[i + 1] == '{' && text[i + 2] in ['#', '^', '/']
  }

  /** The section tag that begins at `i`. */
  function TagAt(text: string, i: nat): (tag: Option<Tag>)
    requires i <= |text|
    ensures tag.Some? ==> tag.value.start == i && i + 5 < tag.value.end <= |text|
  {
    if TagStarts(text, i) then
      var j := WordEnd(text, i + 3);
      if j > i + 3 && j + 1 < |text| && text[j] == '}' && text[j + 1] == '}' then
        Some(Tag(i, j + 2, text[i + 2], text[i + 3..j]))
      else None
    else None
  }

  function TagsFrom(text: string, i: nat): seq<Tag>
    requires i <= |text|
    decreases |text| - i
  {
    if i == |text| then []
    else match TagAt(text, i)
      case Some(tag) => [tag] + TagsFrom(text, tag.end)
      case None => TagsFrom(text, i + 1)
  }

  lemma {:induction false} TooShortForTags(text: string, i: nat)
    requires i <= |text| <= i + 5
    ensures TagsFrom(text, i) == []
    decreases |text| - i
  {
    if i < |text| { TooShortForTags(text, i + 1); }
  }

  lemma TagsFromHere(text: string, i: nat)
    requires i < |text|
    ensures TagsFrom(text, i) == match TagAt(text, i)
                                 case Some(tag) => [tag] + TagsFrom(text, tag.end)
                                 case None => TagsFrom(text, i + 1)
  {
    hide TagAt;
  }

  lemma OneMore<T>(earlier: seq<T>, x: T, later: seq<T>)
    ensures (earlier + [x]) + later == earlier + ([x] + later)
  {
  }

  /** `section_tags`. */
  method SectionTags(text: string) returns (tags: seq<Tag>)
    ensures tags == TagsFrom(text, 0)
  {
    tags := [];
    var i := 0;
    while i + 4 < |text|
      invariant i <= |text|
      invariant tags + TagsFrom(text, i) == TagsFrom(text, 0)
      decreases |text| - i
    {
      hide TagsFrom;
      TagsFromHere(text, i);
      if text[i] == '{' && text[i + 1] == '{' && text[i + 2] in ['#', '^', '/'] {
        var j := WordEnd(text, i + 3);
        if j > i + 3 && j + 1 < |text| && text[j] == '}' && text[j + 1] == '}' {
          var tag := Tag(i, j + 2, text[i + 2], text[i + 3..j]);
          assert TagAt(text, i) == Some(tag);
          OneMore(tags, tag, TagsFrom(text, tag.end));
          tags := tags + [tag];
          i := j + 2;
          continue;
        }
      }
      i := i + 1;
    }
    TooShortForTags(text, i);
  }

  // ---- rewriting the leftmost innermost section -------------------------------------------------

  /** The leftmost opener whose next section tag is its own closer, with that closer. */
  function InnermostPair(tags: seq<Tag>): Option<(Tag, Tag)> {
    if |tags| < 2 then None
    else if tags[0].kind != '/' && tags[1].kind == '/' && tags[1].name == tags[0].name then
      Some((tags[0], tags[1]))
    else InnermostPair(tags[1..])
  }

  predicate InText(text: string, pair: (Tag, Tag)) {
    pair.0.start <= pair.0.end <= pair.1.start <= pair.1.end <= |text|
  }

  function ReplacePair(text: string, vars: Vars, pair: (Tag, Tag)): string
    requires InText(text, pair)
  {
    text[..pair.0.start]
    + ((if Keeps(pair.0.kind, pair.0.name, vars) then text[pair.0.end..pair.1.start] else "")
       + text[pair.1.end..])
  }

  lemma {:induction false} TagsAreInText(text: string, i: nat)
    requires i <= |text|
    ensures var tags := TagsFrom(text, i);
            && (tags != [] ==> i <= tags[0].start)
            && (forall k :: 0 <= k < |tags| ==> tags[k].start <= tags[k].end <= |text|)
            && (forall k :: 0 < k < |tags| ==> tags[k - 1].end <= tags[k].start)
    decreases |text| - i
  {
    if i < |text| {
      match TagAt(text, i)
      case Some(tag) => TagsAreInText(text, tag.end);
      case None => TagsAreInText(text, i + 1);
    }
  }

  lemma {:induction false} PairIsInText(text: string, tags: seq<Tag>)
    requires forall k :: 0 <= k < |tags| ==> tags[k].start <= tags[k].end <= |text|
    requires forall k :: 0 < k < |tags| ==> tags[k - 1].end <= tags[k].start
    ensures InnermostPair(tags).Some? ==> InText(text, InnermostPair(tags).value)
  {
    if |tags| >= 2 { PairIsInText(text, tags[1..]); }
  }

  /** One turn of the loop. */
  function RewriteOnce(text: string, vars: Vars): Option<string> {
    match InnermostPair(TagsFrom(text, 0))
    case None => None
    case Some(pair) =>
      TagsAreInText(text, 0);
      PairIsInText(text, TagsFrom(text, 0));
      Some(ReplacePair(text, vars, pair))
  }

  /** At most `turns` rewrites. */
  function Rewrite(text: string, vars: Vars, turns: nat): string
    decreases turns
  {
    if turns == 0 then text
    else match RewriteOnce(text, vars)
      case None => text
      case Some(next) => Rewrite(next, vars, turns - 1)
  }

  // ---- variables --------------------------------------------------------------------------------

  function ValueOf(name: string, vars: Vars): string {
    if name in vars && vars[name].Words? then vars[name].text else ""
  }

  /** The length of the variable tag at the start of the text, if one stands there. */
  function VariableTag(text: string): (end: Option<nat>)
    ensures end.Some? ==> 5 <= end.value <= |text|
  {
    if |text| >= 2 && text[0] == '{' && text[1] == '{' then
      var j := WordEnd(text, 2);
      if j > 2 && j + 1 < |text| && text[j] == '}' && text[j + 1] == '}' then Some(j + 2) else None
    else None
  }

  function Substitute(text: string, vars: Vars): string
    decreases |text|
  {
    if text == "" then ""
    else match VariableTag(text)
      case Some(end) => ValueOf(text[2..end - 2], vars) + Substitute(text[end..], vars)
      case None =>
        if StartsWith(text, "{{") then "{{" + Substitute(text[2..], vars)
        else [text[0]] + Substitute(text[1..], vars)
  }

  lemma {:induction false} CopiedUpTo(text: string, n: nat, vars: Vars)
    requires n <= |text| && forall i :: 0 <= i < n ==> !MatchesAt(text, "{{", i)
    ensures Substitute(text, vars) == text[..n] + Substitute(text[n..], vars)
    decreases n
  {
    if n > 0 {
      NoMatchNoOpener(text);
      forall i | 0 <= i < n - 1 ensures !MatchesAt(text[1..], "{{", i) {
        MatchShifts(text, "{{", i);
      }
      hide *;
      CharIsCopied(text, vars);
      CopiedUpTo(text[1..], n - 1, vars);
      SplitAfterFirst(text, n);
      Associative([text[0]], text[1..][..n - 1], Substitute(text[n..], vars));
    } else {
      assert text[0..] == text;
    }
  }

  lemma SplitAfterFirst(text: string, n: nat)
    requires 0 < n <= |text|
    ensures text[1..][n - 1..] == text[n..] && [text[0]] + text[1..][..n - 1] == text[..n]
  {
  }

  lemma NoMatchNoOpener(text: string)
    requires text != "" && !MatchesAt(text, "{{", 0)
    ensures !(|text| > 1 && text[0] == '{' && text[1] == '{')
  {
  }

  lemma MatchShifts(text: string, p: string, i: nat)
    requires text != ""
    ensures MatchesAt(text[1..], p, i) <==> MatchesAt(text, p, i + 1)
  {
  }

  lemma {:induction false} WordEndShifts(text: string, after: string, i: nat)
    requires |text| == |after| + 2 && text[2..] == after && i <= |after|
    ensures WordEnd(text, i + 2) == WordEnd(after, i) + 2
    decreases |after| - i
  {
    if i < |after| {
      assert text[i + 2] == after[i];
      WordEndShifts(text, after, i + 1);
    }
  }

  lemma {:induction false} NoOpenerCopies(text: string, vars: Vars)
    requires FindFrom(text, "{{", 0).None?
    ensures Substitute(text, vars) == text
  {
    FindIsFirst(text, "{{", 0);
    CopiedUpTo(text, |text|, vars);
    assert text[|text|..] == "" && text[..|text|] == text;
  }

  lemma OpenerTag(here: string)
    requires StartsWith(here, "{{")
    ensures var after := here[2..];
            var n := WordEnd(after, 0);
            VariableTag(here)
            == if n > 0 && n + 1 < |after| && after[n] == '}' && after[n + 1] == '}' then Some(n + 4) else None
  {
    var after := here[2..];
    WordEndShifts(here, after, 0);
    var n := WordEnd(after, 0);
    hide WordEnd;
    assert here[0] == '{' && here[1] == '{' by { assert here[..2] == "{{"; }
    if n + 1 < |after| { assert here[n + 2] == after[n] && here[n + 3] == after[n + 1]; }
  }

  lemma SubstituteStep(here: string, vars: Vars)
    requires StartsWith(here, "{{")
    ensures Substitute(here, vars)
         == match VariableTag(here)
            case Some(end) => ValueOf(here[2..end - 2], vars) + Substitute(here[end..], vars)
            case None => "{{" + Substitute(here[2..], vars)
  {
    hide VariableTag, ValueOf;
  }

  /** The text after a `{{`, read as a variable's name when it can be. */
  lemma OpenerIsRead(here: string, vars: Vars)
    requires StartsWith(here, "{{")
    ensures var after := here[2..];
            var n := WordEnd(after, 0);
            Substitute(here, vars)
            == if n > 0 && n + 1 < |after| && after[n] == '}' && after[n + 1] == '}'
               then ValueOf(after[..n], vars) + Substitute(after[n + 2..], vars)
               else "{{" + Substitute(after, vars)
  {
    OpenerTag(here);
    SubstituteStep(here, vars);
    assert |here| >= 2;
    hide *;
    var after := here[2..];
    var n := WordEnd(after, 0);
    if VariableTag(here).Some? {
      assert here[2..n + 2] == after[..n] && here[n + 4..] == after[n + 2..];
    }
  }

  /** `substitute_variables`. */
  method SubstituteVariables(text: string, vars: Vars) returns (out: string)
    ensures out == Substitute(text, vars)
  {
    hide Substitute, ValueOf, WordEnd, Find;
    out := "";
    var rest := text;
    while true
      invariant out + Substitute(rest, vars) == Substitute(text, vars)
      decreases |rest|
    {
      var opener := FindFrom(rest, "{{", 0);
      FindIsFirst(rest, "{{", 0);
      if opener.None? {
        NoOpenerCopies(rest, vars);
        break;
      }
      CopiedUpTo(rest, opener.value, vars);
      ghost var here := rest[opener.value..];
      var after := rest[opener.value + 2..];
      assert here[2..] == after;
      OpenerIsRead(here, vars);
      ghost var before := out;
      out := out + rest[..opener.value];
      Associative(before, rest[..opener.value], Substitute(here, vars));
      var nameLen := WordEnd(after, 0);
      if nameLen > 0 && nameLen + 1 < |after| && after[nameLen] == '}' && after[nameLen + 1] == '}' {
        var value := ValueOf(after[..nameLen], vars);
        rest := after[nameLen + 2..];
        Associative(out, value, Substitute(rest, vars));
        out := out + value;
      } else {
        rest := after;
        Associative(out, "{{", Substitute(rest, vars));
        out := out + "{{";
      }
    }
    out := out + rest;
  }

  // ---- lines and blank lines --------------------------------------------------------------------

  /** The text up to and including its first newline. */
  function LineEnd(text: string): (n: nat)
    ensures n <= |text| && (text != "" ==> n > 0)
  {
    if text == "" then 0 else if text[0] == '\n' then 1 else 1 + LineEnd(text[1..])
  }

  function TrimOf(s: string, drop: set<char>): string
    decreases |s|
  {
    if s == "" then ""
    else if s[0] in drop then TrimOf(s[1..], drop)
    else if s[|s| - 1] in drop then TrimOf(s[..|s| - 1], drop)
    else s
  }

  function TrimEndOf(s: string, drop: set<char>): string
    decreases |s|
  {
    if s != "" && s[|s| - 1] in drop then TrimEndOf(s[..|s| - 1], drop) else s
  }

  predicate IsSectionTag(s: string) {
    && |s| > 5 && s[0] == '{' && s[1] == '{' && s[|s| - 2] == '}' && s[|s| - 1] == '}'
    && s[2] in ['#', '^', '/'] && Word(s[3..|s| - 2])
  }

  /** Letters, digits and the underscore of ASCII. */
  lemma WordsAre(c: char)
    ensures var code := c as int;
            WordChar(c) <==> 48 <= code <= 57 || 65 <= code <= 90 || code == 95 || 97 <= code <= 122
  {
  }

  /** A section tag is a name between `{{#`, `{{^` or `{{/` and `}}`. */
  lemma SectionTagsAre(s: string)
    ensures IsSectionTag(s)
            <==> exists kind, name :: kind in "#^/" && Word(name) && s == "{{" + [kind] + name + "}}"
  {
    if IsSectionTag(s) {
      assert s == "{{" + [s[2]] + s[3..|s| - 2] + "}}";
    }
    if kind, name :| kind in "#^/" && Word(name) && s == "{{" + [kind] + name + "}}" {
      assert s[3..|s| - 2] == name;
    }
  }

  function StripLine(line: string): string {
    var inner := TrimOf(TrimEndOf(line, {'\n', '\r'}), {' ', '\t'});
    if IsSectionTag(inner) && line != "" && line[|line| - 1] == '\n' then inner else line
  }

  /** `strip_section_only_lines`. */
  function StripSectionOnlyLines(template: string): string
    decreases |template|
  {
    if template == "" then ""
    else
      var n := LineEnd(template);
      StripLine(template[..n]) + StripSectionOnlyLines(template[n..])
  }

  predicate Only(s: string, drop: set<char>) {
    forall i :: 0 <= i < |s| ==> s[i] in drop
  }

  lemma {:induction false} TrimEndOfStops(kept: string, after: string, drop: set<char>)
    requires kept != "" && kept[|kept| - 1] !in drop && Only(after, drop)
    ensures TrimEndOf(kept + after, drop) == kept
  {
    if after == "" {
      assert kept + after == kept;
    } else {
      TrimEndOfStops(kept, after[..|after| - 1], drop);
      assert (kept + after)[..|kept + after| - 1] == kept + after[..|after| - 1];
    }
  }

  lemma {:induction false} TrimOfStops(before: string, kept: string, after: string, drop: set<char>)
    requires kept != "" && kept[0] !in drop && kept[|kept| - 1] !in drop
    requires Only(before, drop) && Only(after, drop)
    ensures TrimOf(before + (kept + after), drop) == kept
    decreases |before| + |after|
  {
    var all := before + (kept + after);
    if before != "" {
      assert all[0] == before[0] && all[1..] == before[1..] + (kept + after);
      TrimOfStops(before[1..], kept, after, drop);
    } else if after != "" {
      assert all[0] == kept[0] && all[|all| - 1] == after[|after| - 1];
      assert all[..|all| - 1] == before + (kept + after[..|after| - 1]);
      TrimOfStops(before, kept, after[..|after| - 1], drop);
    } else {
      assert all == kept;
    }
  }

  /** A section tag alone on a line, however indented and however the line ends, is all that is left of
      the line: its blanks and its newline are gone. */
  lemma TagLineIsStripped(indent: string, tag: string, blanks: string, carriage: string)
    requires IsSectionTag(tag) && Only(indent, {' ', '\t'}) && Only(blanks, {' ', '\t'}) && Only(carriage, {'\r'})
    ensures StripLine(indent + (tag + blanks) + (carriage + "\n")) == tag
  {
    var inner, end := indent + (tag + blanks), carriage + "\n";
    assert inner[|inner| - 1] == (if blanks == "" then tag[|tag| - 1] else blanks[|blanks| - 1]);
    assert (inner + end)[|inner + end| - 1] == '\n';
    hide TrimOf, TrimEndOf, IsSectionTag;
    TrimEndOfStops(inner, end, {'\n', '\r'});
    assert tag[0] == '{' && tag[|tag| - 1] == '}' by { TagEnds(tag); }
    TrimOfStops(indent, tag, blanks, {' ', '\t'});
  }

  lemma TagEnds(tag: string)
    requires IsSectionTag(tag)
    ensures tag != "" && tag[0] == '{' && tag[|tag| - 1] == '}'
  {
  }

  /** `strip_section_only_lines`, line by line. */
  method StripLines(template: string) returns (out: string)
    ensures out == StripSectionOnlyLines(template)
  {
    hide StripLine;
    out := "";
    var rest := template;
    while rest != ""
      invariant out + StripSectionOnlyLines(rest) == StripSectionOnlyLines(template)
      decreases |rest|
    {
      var n := LineEnd(rest);
      out := out + StripLine(rest[..n]);
      rest := rest[n..];
    }
  }

  /** `replace("\r\n", "\n")`. */
  function UnixLines(s: string): string {
    if s == "" then ""
    else if StartsWith(s, "\r\n") then "\n" + UnixLines(s[2..])
    else [s[0]] + UnixLines(s[1..])
  }

  /** Keep at most two newlines of every run; `newlines` is how many were just read. */
  function Collapse(s: string, newlines: nat): string
    decreases s
  {
    if s == "" then ""
    else if s[0] == '\n' then
      (if newlines < 2 then "\n" else "") + Collapse(s[1..], newlines + 1)
    else [s[0]] + Collapse(s[1..], 0)
  }

  /** `tidy`. */
  function Tidy(value: string): string {
    Trim(Collapse(UnixLines(value), 0))
  }

  /** A Windows line end becomes a newline, whatever stands around it; */
  lemma {:induction false} UnixLinesAt(before: string, after: string)
    ensures UnixLines(before + ("\r\n" + after)) == UnixLines(before) + ("\n" + UnixLines(after))
    decreases |before|
  {
    var text := before + ("\r\n" + after);
    if before == "" {
      assert text == "\r\n" + after && text[2..] == after;
    } else if StartsWith(before, "\r\n") {
      assert text[..2] == before[..2] && text[2..] == before[2..] + ("\r\n" + after);
      UnixLinesAt(before[2..], after);
    } else {
      assert !StartsWith(text, "\r\n") by {
        if |before| >= 2 { assert text[..2] == before[..2]; } else { assert text[1] == '\r' && text[..2][1] == '\r'; }
      }
      assert text[1..] == before[1..] + ("\r\n" + after);
      UnixLinesAt(before[1..], after);
    }
  }

  /** and a text without one stays as it is. */
  lemma {:induction false} UnixLinesKeep(s: string)
    requires forall i: nat :: !MatchesAt(s, "\r\n", i)
    ensures UnixLines(s) == s
  {
    if s != "" {
      assert !MatchesAt(s, "\r\n", 0);
      forall i: nat ensures !MatchesAt(s[1..], "\r\n", i) {
        assert !MatchesAt(s, "\r\n", i + 1);
        MatchShifts(s, "\r\n", i);
      }
      UnixLinesKeep(s[1..]);
    }
  }

  function Newlines(n: nat): string {
    seq(n, i => '\n')
  }

  lemma OneNewline(n: nat, after: string)
    ensures "\n" + Newlines(n) == Newlines(n + 1) && Newlines(0) == ""
    ensures "\n" + (Newlines(n) + after) == Newlines(n + 1) + after
  {
  }

  /** How many of `n` newlines are kept after `read` of them. */
  function KeptNewlines(n: nat, read: nat): nat {
    if read >= 2 then 0 else if read + n <= 2 then n else 2 - read
  }

  lemma CollapseNewline(rest: string, read: nat)
    ensures Collapse("\n" + rest, read) == (if read < 2 then "\n" else "") + Collapse(rest, read + 1)
  {
    assert ("\n" + rest)[1..] == rest;
  }

  lemma CollapseResets(after: string, read: nat)
    requires after == "" || after[0] != '\n'
    ensures Collapse(after, read) == Collapse(after, 0)
  {
  }

  lemma {:induction false} CollapseRun(n: nat, after: string, read: nat)
    requires after == "" || after[0] != '\n'
    ensures Collapse(Newlines(n) + after, read) == Newlines(KeptNewlines(n, read)) + Collapse(after, 0)
    decreases n
  {
    CollapseResets(after, read);
    OneNewline(0, after);
    hide Collapse, Newlines;
    if n == 0 {
      assert "" + after == after && "" + Collapse(after, 0) == Collapse(after, 0);
    } else {
      OneNewline(n - 1, after);
      CollapseNewline(Newlines(n - 1) + after, read);
      CollapseRun(n - 1, after, read + 1);
      var kept := KeptNewlines(n - 1, read + 1);
      var rest := Newlines(kept) + Collapse(after, 0);
      OneNewline(kept, Collapse(after, 0));
      assert "" + rest == rest;
    }
  }

  lemma CollapseOne(c: char, rest: string, read: nat)
    ensures Collapse([c] + rest, read)
         == (if c != '\n' || read < 2 then [c] else "") + Collapse(rest, if c == '\n' then read + 1 else 0)
  {
    assert ([c] + rest)[1..] == rest;
  }

  /** Of every whole run of newlines at most two are left, */
  lemma {:induction false} CollapseAt(before: string, n: nat, after: string, read: nat)
    requires before != "" && before[|before| - 1] != '\n' && (after == "" || after[0] != '\n')
    ensures Collapse(before + (Newlines(n) + after), read)
         == Collapse(before, read) + (Newlines(if n < 2 then n else 2) + Collapse(after, 0))
    decreases |before|
  {
    var rest, left := Newlines(n) + after, Newlines(if n < 2 then n else 2) + Collapse(after, 0);
    if |before| == 1 {
      CollapseLast(before[0], n, after, read);
      assert before == [before[0]];
    } else {
      var next := if before[0] == '\n' then read + 1 else 0;
      CollapseAt(before[1..], n, after, next);
      CollapseAhead(before[0], before[1..], rest, left, read);
      assert before == [before[0]] + before[1..];
    }
  }

  lemma CollapseLast(c: char, n: nat, after: string, read: nat)
    requires c != '\n' && (after == "" || after[0] != '\n')
    ensures Collapse([c] + (Newlines(n) + after), read)
         == Collapse([c], read) + (Newlines(if n < 2 then n else 2) + Collapse(after, 0))
  {
    CollapseOne(c, Newlines(n) + after, read);
    CollapseRun(n, after, 0);
    assert Collapse([c], read) == [c];
    hide Collapse, Newlines;
  }

  lemma CollapseAhead(c: char, tail: string, rest: string, left: string, read: nat)
    requires var next := if c == '\n' then read + 1 else 0;
             Collapse(tail + rest, next) == Collapse(tail, next) + left
    ensures Collapse([c] + tail + rest, read) == Collapse([c] + tail, read) + left
  {
    CollapseOne(c, tail, read);
    CollapseOne(c, tail + rest, read);
    hide Collapse;
    Associative([c], tail, rest);
    var next := if c == '\n' then read + 1 else 0;
    Associative(if c != '\n' || read < 2 then [c] else "", Collapse(tail, next), left);
  }

  /** and a text without newlines stays as it is. */
  lemma {:induction false} CollapseKeeps(s: string, read: nat)
    requires '\n' !in s
    ensures Collapse(s, read) == s
    decreases s
  {
    if s != "" { CollapseKeeps(s[1..], 0); }
  }

  /** No run of more than two newlines. */
  ghost predicate AtMostOneBlankLine(s: string) {
    forall i :: 0 <= i < |s| - 2 ==> !(s[i] == '\n' && s[i + 1] == '\n' && s[i + 2] == '\n')
  }

  lemma {:induction false} CollapseKeepsTwo(s: string, newlines: nat)
    ensures var c := Collapse(s, newlines);
            && AtMostOneBlankLine(c)
            && (newlines >= 1 && |c| >= 2 ==> !(c[0] == '\n' && c[1] == '\n'))
            && (newlines >= 2 && c != "" ==> c[0] != '\n')
    decreases s
  {
    if s != "" { CollapseKeepsTwo(s[1..], if s[0] == '\n' then newlines + 1 else 0); }
  }

  /** A rendered prompt has no two blank lines in a row and no white space at either end. */
  lemma TidyIsTidy(value: string)
    ensures var t := Tidy(value);
            && AtMostOneBlankLine(t)
            && (t != "" ==> !IsWhite(t[0]) && !IsWhite(t[|t| - 1]))
  {
    var c := Collapse(UnixLines(value), 0);
    CollapseKeepsTwo(UnixLines(value), 0);
    var from, to := TrimIsASlice(c);
    hide AtMostOneBlankLine;
    SliceKeepsTwo(c, from, to);
  }

  lemma SliceKeepsTwo(s: string, from: nat, to: nat)
    requires from <= to <= |s| && AtMostOneBlankLine(s)
    ensures AtMostOneBlankLine(s[from..to])
  {
  }

  const MAX_SECTIONS := 100

  function Rendered(template: string, vars: Vars): string {
    Tidy(Substitute(Rewrite(StripSectionOnlyLines(template), vars, MAX_SECTIONS), vars))
  }

  /** `render_template`. */
  method RenderTemplate(template: string, vars: Vars) returns (rendered: string)
    ensures rendered == Rendered(template, vars)
  {
    hide Tidy, Substitute, StripSectionOnlyLines, TagsFrom, InnermostPair, Keeps;
    var output := StripLines(template);
    ghost var whole := Rewrite(output, vars, MAX_SECTIONS);
    for turn := 0 to MAX_SECTIONS
      invariant Rewrite(output, vars, MAX_SECTIONS - turn) == whole
    {
      var tags := SectionTags(output);
      var pair := InnermostPair(tags);
      if pair.None? {
        break;
      }
      TagsAreInText(output, 0);
      PairIsInText(output, tags);
      var (open, close) := pair.value;
      var keepBody := Keeps(open.kind, open.name, vars);
      var body := output[open.end..close.start];
      var replacement := if keepBody then body else "";
      output := output[..open.start] + (replacement + output[close.end..]);
    }
    assert output == whole;
    var substituted := SubstituteVariables(output, vars);
    rendered := Tidy(substituted);
  }

  // ---- the section tree -------------------------------------------------------------------------

  datatype Template =
    | End
    | Run(text: string, rest: Template)
    | Variable(name: string, rest: Template)
    | Section(inverted: bool, name: string, body: Template, rest: Template)

  function OpenTag(inverted: bool, name: string): string {
    "{{" + ([if inverted then '^' else '#'] + (name + "}}"))
  }

  function CloseTag(name: string): string {
    "{{" + ("/" + (name + "}}"))
  }

  function VariableText(name: string): string {
    "{{" + (name + "}}")
  }

  function Flat(t: Template): string {
    match t
    case End => ""
    case Run(text, rest) => text + Flat(rest)
    case Variable(name, rest) => VariableText(name) + Flat(rest)
    case Section(inverted, name, body, rest) =>
      OpenTag(inverted, name) + (Flat(body) + (CloseTag(name) + Flat(rest)))
  }

  /** A run of text that neither holds a `{{` nor can complete one with what follows it. */
  predicate Plain(text: string) {
    && (forall i :: 0 <= i < |text| - 1 ==> !(text[i] == '{' && text[i + 1] == '{'))
    && (text != "" ==> text[|text| - 1] != '{')
  }

  predicate WellFormed(t: Template) {
    match t
    case End => true
    case Run(text, rest) => Plain(text) && WellFormed(rest)
    case Variable(name, rest) => Word(name) && WellFormed(rest)
    case Section(_, name, body, rest) => Word(name) && WellFormed(body) && WellFormed(rest)
  }

  function Sections(t: Template): nat {
    match t
    case End => 0
    case Run(_, rest) => Sections(rest)
    case Variable(_, rest) => Sections(rest)
    case Section(_, _, body, rest) => 1 + Sections(body) + Sections(rest)
  }

  /** The name is bound to a set flag, or to words with something in them that is not white. */
  ghost predicate IsSet(name: string, vars: Vars) {
    name in vars && match vars[name]
                    case Flag(on) => on
                    case Words(text) => exists i :: 0 <= i < |text| && !IsWhite(text[i])
  }

  /** What the template means. A variable stands for the words bound to it, and for nothing when it is
      unbound or a flag; a `#` section for its body exactly when its name is set, a `^` section for its
      body exactly when it is not. */
  ghost function Meaning(t: Template, vars: Vars): string {
    match t
    case End => ""
    case Run(text, rest) => text + Meaning(rest, vars)
    case Variable(name, rest) =>
      (if name in vars && vars[name].Words? then vars[name].text else "") + Meaning(rest, vars)
    case Section(inverted, name, body, rest) =>
      (if IsSet(name, vars) != inverted then Meaning(body, vars) else "") + Meaning(rest, vars)
  }

  lemma TruthyIsSet(name: string, vars: Vars)
    ensures IsSet(name, vars) <==> name in vars && Truthy(vars[name])
  {
    if name in vars && vars[name].Words? { BlankIsWhite(vars[name].text); }
    hide Trim;
  }

  lemma KeepsIsSet(inverted: bool, name: string, vars: Vars)
    ensures Keeps(if inverted then '^' else '#', name, vars) <==> IsSet(name, vars) != inverted
  {
    TruthyIsSet(name, vars);
    hide Truthy, IsSet;
  }

  // ---- scanning a printed tree ------------------------------------------------------------------

  function TagsOf(t: Template, at: nat): seq<Tag> {
    match t
    case End => []
    case Run(text, rest) => TagsOf(rest, at + |text|)
    case Variable(name, rest) => TagsOf(rest, at + |name| + 4)
    case Section(inverted, name, body, rest) =>
      var open := at + |name| + 5;
      var close := open + |Flat(body)|;
      [Tag(at, open, if inverted then '^' else '#', name)]
      + (TagsOf(body, open) + ([Tag(close, close + |name| + 5, '/', name)]
                               + TagsOf(rest, close + |name| + 5)))
  }

  lemma {:induction false} WordEndsAt(text: string, i: nat, j: nat)
    requires i <= j < |text| && !WordChar(text[j])
    requires forall k :: i <= k < j ==> WordChar(text[k])
    ensures WordEnd(text, i) == j
    decreases j - i
  {
    if i < j { WordEndsAt(text, i + 1, j); }
  }

  /** A printed section tag is read back. */
  lemma TagIsRead(text: string, at: nat, kind: char, name: string)
    requires Word(name) && kind in ['#', '^', '/']
    requires MatchesAt(text, "{{" + ([kind] + (name + "}}")), at)
    ensures TagAt(text, at) == Some(Tag(at, at + |name| + 5, kind, name))
  {
    TagIsSpelled(text, at, kind, name);
    hide MatchesAt;
    forall k | at + 3 <= k < at + 3 + |name| ensures WordChar(text[k]) {
      assert text[k] == name[k - at - 3];
    }
    WordEndsAt(text, at + 3, at + 3 + |name|);
    assert text[at + 3..at + 3 + |name|] == name;
  }

  lemma TagIsSpelled(text: string, at: nat, kind: char, name: string)
    requires MatchesAt(text, "{{" + ([kind] + (name + "}}")), at)
    ensures at + |name| + 5 <= |text|
    ensures text[at] == '{' && text[at + 1] == '{' && text[at + 2] == kind
    ensures forall k :: 0 <= k < |name| ==> text[at + 3 + k] == name[k]
    ensures text[at + 3 + |name|] == '}' && text[at + 4 + |name|] == '}'
  {
  }

  /** Where no tag begins, the scan moves on. */
  lemma {:induction false} ScanSkips(text: string, i: nat, j: nat)
    requires i <= j <= |text|
    requires forall k :: i <= k < j ==> !TagStarts(text, k)
    ensures TagsFrom(text, i) == TagsFrom(text, j)
    decreases j - i
  {
    if i < j { ScanSkips(text, i + 1, j); }
  }

  lemma RunIsSkipped(text: string, at: nat, run: string)
    requires Plain(run) && MatchesAt(text, run, at)
    ensures TagsFrom(text, at) == TagsFrom(text, at + |run|)
  {
    forall k | at <= k < at + |run| ensures !TagStarts(text, k) {
      MatchChar(text, run, at, k - at);
      if k + 1 < at + |run| { MatchChar(text, run, at, k + 1 - at); }
    }
    ScanSkips(text, at, at + |run|);
  }

  lemma VariableIsSkipped(text: string, at: nat, name: string)
    requires Word(name) && MatchesAt(text, VariableText(name), at)
    ensures TagsFrom(text, at) == TagsFrom(text, at + |name| + 4)
  {
    var v := VariableText(name);
    assert v[2] == name[0];
    MatchChar(text, v, at, 2);
    forall k | at <= k < at + |name| + 4 ensures !TagStarts(text, k) {
      MatchChar(text, v, at, k - at);
      if at + 2 <= k < at + 2 + |name| { assert v[k - at] == name[k - at - 2]; }
    }
    ScanSkips(text, at, at + |name| + 4);
  }

  /** What the scan of `text` from `at` yields when a tree with these tags and this length stands
      there. */
  ghost predicate Scanned(text: string, at: nat, tags: seq<Tag>, length: nat) {
    at + length <= |text| && TagsFrom(text, at) == tags + TagsFrom(text, at + length)
  }

  lemma NothingIsScanned(text: string, at: nat)
    requires at <= |text|
    ensures Scanned(text, at, [], 0)
  {
  }

  lemma SkippedThenScanned(text: string, at: nat, skipped: nat, tags: seq<Tag>, length: nat)
    requires Scanned(text, at + skipped, tags, length)
    requires TagsFrom(text, at) == TagsFrom(text, at + skipped)
    ensures Scanned(text, at, tags, skipped + length)
  {
  }

  lemma ScannedThenScanned(text: string, at: nat, a: seq<Tag>, m: nat, b: seq<Tag>, n: nat)
    requires Scanned(text, at, a, m) && Scanned(text, at + m, b, n)
    ensures Scanned(text, at, a + b, m + n)
  {
  }

  /** The tags found in a printed tree are the tree's, wherever it stands. */
  lemma {:induction false} TreeIsScanned(text: string, at: nat, t: Template)
    requires WellFormed(t) && MatchesAt(text, Flat(t), at)
    ensures Scanned(text, at, TagsOf(t, at), |Flat(t)|)
    decreases t
  {
    hide TagsFrom;
    match t
    case End =>
      NothingIsScanned(text, at);
    case Run(run, rest) =>
      MatchSplit(text, run, Flat(rest), at);
      RunIsSkipped(text, at, run);
      TreeIsScanned(text, at + |run|, rest);
      SkippedThenScanned(text, at, |run|, TagsOf(rest, at + |run|), |Flat(rest)|);
    case Variable(name, rest) =>
      MatchSplit(text, VariableText(name), Flat(rest), at);
      VariableIsSkipped(text, at, name);
      TreeIsScanned(text, at + |name| + 4, rest);
      SkippedThenScanned(text, at, |name| + 4, TagsOf(rest, at + |name| + 4), |Flat(rest)|);
    case Section(_, _, _, _) =>
      SectionIsScanned(text, at, t);
  }

  lemma {:induction false} SectionIsScanned(text: string, at: nat, t: Template)
    requires t.Section? && WellFormed(t) && MatchesAt(text, Flat(t), at)
    ensures Scanned(text, at, TagsOf(t, at), |Flat(t)|)
    decreases t, 0
  {
    hide *;
    SectionStands(text, at, t);
    SectionParts(t, at);
    var kind := if t.inverted then '^' else '#';
    var open := at + |t.name| + 5;
    var close := open + |Flat(t.body)|;
    var end := close + |t.name| + 5;
    var opener, closer := [Tag(at, open, kind, t.name)], [Tag(close, end, '/', t.name)];
    TagIsScanned(text, at, kind, t.name);
    TreeIsScanned(text, open, t.body);
    TagIsScanned(text, close, '/', t.name);
    TreeIsScanned(text, end, t.rest);
    ScannedThenScanned(text, close, closer, |t.name| + 5, TagsOf(t.rest, end), |Flat(t.rest)|);
    ScannedThenScanned(text, open, TagsOf(t.body, open), |Flat(t.body)|,
                       closer + TagsOf(t.rest, end), |t.name| + 5 + |Flat(t.rest)|);
    ScannedThenScanned(text, at, opener, |t.name| + 5,
                       TagsOf(t.body, open) + (closer + TagsOf(t.rest, end)),
                       |Flat(t.body)| + (|t.name| + 5 + |Flat(t.rest)|));
  }

  lemma SectionParts(t: Template, at: nat)
    requires t.Section? && WellFormed(t)
    ensures Word(t.name) && WellFormed(t.body) && WellFormed(t.rest)
    ensures OpenTag(t.inverted, t.name) == "{{" + ([if t.inverted then '^' else '#'] + (t.name + "}}"))
    ensures CloseTag(t.name) == "{{" + (['/'] + (t.name + "}}"))
    ensures var open := at + |t.name| + 5;
            var close := open + |Flat(t.body)|;
            TagsOf(t, at) == [Tag(at, open, if t.inverted then '^' else '#', t.name)]
                             + (TagsOf(t.body, open) + ([Tag(close, close + |t.name| + 5, '/', t.name)]
                                                        + TagsOf(t.rest, close + |t.name| + 5)))
  {
  }

  lemma TagIsScanned(text: string, at: nat, kind: char, name: string)
    requires Word(name) && kind in ['#', '^', '/']
    requires MatchesAt(text, "{{" + ([kind] + (name + "}}")), at)
    ensures Scanned(text, at, [Tag(at, at + |name| + 5, kind, name)], |name| + 5)
  {
    TagIsRead(text, at, kind, name);
  }

  /** The four parts of a printed section. */
  lemma SectionStands(text: string, at: nat, t: Template)
    requires t.Section? && MatchesAt(text, Flat(t), at)
    ensures var open := at + |t.name| + 5;
            var close := open + |Flat(t.body)|;
            && MatchesAt(text, OpenTag(t.inverted, t.name), at)
            && MatchesAt(text, Flat(t.body), open)
            && MatchesAt(text, CloseTag(t.name), close)
            && MatchesAt(text, Flat(t.rest), close + |t.name| + 5)
            && close + |t.name| + 5 + |Flat(t.rest)| == at + |Flat(t)| <= |text|
  {
    hide *;
    var opener, closer := OpenTag(t.inverted, t.name), CloseTag(t.name);
    var body, rest := Flat(t.body), Flat(t.rest);
    FlatParts(t);
    MatchFits(text, Flat(t), at);
    MatchSplit(text, opener, body + (closer + rest), at);
    MatchSplit(text, body, closer + rest, at + |opener|);
    MatchSplit(text, closer, rest, at + |opener| + |body|);
  }

  lemma FlatParts(t: Template)
    requires t.Section?
    ensures Flat(t) == OpenTag(t.inverted, t.name) + (Flat(t.body) + (CloseTag(t.name) + Flat(t.rest)))
    ensures |OpenTag(t.inverted, t.name)| == |CloseTag(t.name)| == |t.name| + 5
  {
  }

  lemma MatchFits(text: string, p: string, at: nat)
    requires MatchesAt(text, p, at)
    ensures at + |p| <= |text|
  {
  }

  // ---- one rewrite on the tree ------------------------------------------------------------------

  function Append(a: Template, b: Template): Template {
    match a
    case End => b
    case Run(text, rest) => Run(text, Append(rest, b))
    case Variable(name, rest) => Variable(name, Append(rest, b))
    case Section(inverted, name, body, rest) => Section(inverted, name, body, Append(rest, b))
  }

  /** The leftmost section without sections inside, resolved. */
  function Reduce(t: Template, vars: Vars): Template
    requires Sections(t) > 0
  {
    match t
    case Run(text, rest) => Run(text, Reduce(rest, vars))
    case Variable(name, rest) => Variable(name, Reduce(rest, vars))
    case Section(inverted, name, body, rest) =>
      if Sections(body) > 0 then Section(inverted, name, Reduce(body, vars), rest)
      else if Keeps(if inverted then '^' else '#', name, vars) then Append(body, rest)
      else rest
  }

  lemma {:induction false} AppendText(a: Template, b: Template)
    ensures Flat(Append(a, b)) == Flat(a) + Flat(b)
  {
    hide OpenTag, CloseTag, VariableText;
    match a
    case End =>
    case Run(text, rest) =>
      AppendText(rest, b);
    case Variable(name, rest) =>
      AppendText(rest, b);
    case Section(inverted, name, body, rest) =>
      AppendText(rest, b);
      Regroup(OpenTag(inverted, name), Flat(body), CloseTag(name), Flat(rest), Flat(b));
  }

  lemma {:induction false} AppendFacts(a: Template, b: Template, vars: Vars)
    ensures Sections(Append(a, b)) == Sections(a) + Sections(b)
    ensures Meaning(Append(a, b), vars) == Meaning(a, vars) + Meaning(b, vars)
    ensures WellFormed(a) && WellFormed(b) ==> WellFormed(Append(a, b))
  {
    hide Plain, IsSet, Word;
    if !a.End? { AppendFacts(a.rest, b, vars); }
  }

  lemma Regroup(open: string, body: string, close: string, rest: string, after: string)
    ensures open + (body + (close + (rest + after))) == open + (body + (close + rest)) + after
  {
  }

  /** A reduction removes one section and keeps the meaning. */
  lemma {:induction false} ReduceKeepsMeaning(t: Template, vars: Vars)
    requires Sections(t) > 0 && WellFormed(t)
    ensures Sections(Reduce(t, vars)) == Sections(t) - 1
    ensures Meaning(Reduce(t, vars), vars) == Meaning(t, vars)
    ensures WellFormed(Reduce(t, vars))
  {
    hide Keeps, IsSet, Plain, Word;
    match t
    case Run(_, rest) => ReduceKeepsMeaning(rest, vars);
    case Variable(_, rest) => ReduceKeepsMeaning(rest, vars);
    case Section(inverted, name, body, rest) =>
      KeepsIsSet(inverted, name, vars);
      if Sections(body) > 0 { ReduceKeepsMeaning(body, vars); } else { AppendFacts(body, rest, vars); }
  }

  /** The pair of tags around the section `Reduce` resolves. */
  function PairOf(t: Template, at: nat): (Tag, Tag)
    requires Sections(t) > 0
  {
    match t
    case Run(text, rest) => PairOf(rest, at + |text|)
    case Variable(name, rest) => PairOf(rest, at + |name| + 4)
    case Section(inverted, name, body, rest) =>
      var open := at + |name| + 5;
      var close := open + |Flat(body)|;
      if Sections(body) > 0 then PairOf(body, open)
      else (Tag(at, open, if inverted then '^' else '#', name), Tag(close, close + |name| + 5, '/', name))
  }

  lemma {:induction false} TagsOfSections(t: Template, at: nat)
    ensures |TagsOf(t, at)| == 2 * Sections(t)
    ensures Sections(t) > 0 ==> TagsOf(t, at)[0].kind != '/'
  {
    match t
    case End =>
    case Run(text, rest) => TagsOfSections(rest, at + |text|);
    case Variable(name, rest) => TagsOfSections(rest, at + |name| + 4);
    case Section(_, name, body, rest) =>
      var open := at + |name| + 5;
      TagsOfSections(body, open);
      TagsOfSections(rest, open + |Flat(body)| + |name| + 5);
  }

  /** Reading the tags left to right, the first opener followed by its closer is that section. */
  lemma {:induction false} InnermostIsFound(t: Template, at: nat, more: seq<Tag>)
    requires Sections(t) > 0
    ensures InnermostPair(TagsOf(t, at) + more) == Some(PairOf(t, at))
  {
    hide Flat;
    match t
    case Run(text, rest) => InnermostIsFound(rest, at + |text|, more);
    case Variable(name, rest) => InnermostIsFound(rest, at + |name| + 4, more);
    case Section(inverted, name, body, rest) =>
      var open := at + |name| + 5;
      var close := open + |Flat(body)|;
      var inner := TagsOf(body, open);
      var later := [Tag(close, close + |name| + 5, '/', name)] + TagsOf(rest, close + |name| + 5);
      var tags := TagsOf(t, at) + more;
      TagsOfSections(body, open);
      assert tags[1..] == inner + (later + more);
      if Sections(body) > 0 {
        InnermostIsFound(body, open, later + more);
        assert tags[1] == inner[0];
      } else {
        assert tags[1] == later[0];
      }
  }

  /** The text with the tree that stands at `at` replaced by another. */
  function Swap(text: string, at: nat, length: nat, with: string): string
    requires at + length <= |text|
  {
    text[..at] + (with + text[at + length..])
  }

  lemma SwapAfter(text: string, at: nat, first: string, length: nat, with: string)
    requires MatchesAt(text, first, at) && at + |first| + length <= |text|
    ensures Swap(text, at + |first|, length, with) == Swap(text, at, |first| + length, first + with)
  {
  }

  /** Replacing that pair in the text is the reduction of the tree. */
  lemma {:induction false} ReplaceIsReduce(text: string, at: nat, t: Template, vars: Vars)
    requires Sections(t) > 0 && MatchesAt(text, Flat(t), at)
    ensures InText(text, PairOf(t, at))
    ensures ReplacePair(text, vars, PairOf(t, at)) == Swap(text, at, |Flat(t)|, Flat(Reduce(t, vars)))
    decreases t
  {
    hide Keeps, ReplacePair, Swap;
    match t
    case Run(run, rest) =>
      MatchSplit(text, run, Flat(rest), at);
      ReplaceIsReduce(text, at + |run|, rest, vars);
      SwapAfter(text, at, run, |Flat(rest)|, Flat(Reduce(rest, vars)));
    case Variable(name, rest) =>
      MatchSplit(text, VariableText(name), Flat(rest), at);
      ReplaceIsReduce(text, at + |name| + 4, rest, vars);
      SwapAfter(text, at, VariableText(name), |Flat(rest)|, Flat(Reduce(rest, vars)));
    case Section(_, _, body, _) =>
      if Sections(body) > 0 { ReplaceInBody(text, at, t, vars); } else { SectionSwaps(text, at, t, vars); }
  }

  lemma {:induction false} ReplaceInBody(text: string, at: nat, t: Template, vars: Vars)
    requires t.Section? && Sections(t.body) > 0 && MatchesAt(text, Flat(t), at)
    ensures InText(text, PairOf(t, at))
    ensures ReplacePair(text, vars, PairOf(t, at)) == Swap(text, at, |Flat(t)|, Flat(Reduce(t, vars)))
    decreases t, 0
  {
    hide Keeps, ReplacePair, Swap;
    SectionStands(text, at, t);
    ReplaceIsReduce(text, at + |t.name| + 5, t.body, vars);
    BodySwaps(text, at, t, Flat(Reduce(t.body, vars)));
  }

  lemma BodySwaps(text: string, at: nat, t: Template, with: string)
    requires t.Section? && MatchesAt(text, Flat(t), at)
    ensures at + |t.name| + 5 + |Flat(t.body)| <= |text|
    ensures Swap(text, at + |t.name| + 5, |Flat(t.body)|, with)
         == Swap(text, at, |Flat(t)|,
                 OpenTag(t.inverted, t.name) + (with + (CloseTag(t.name) + Flat(t.rest))))
  {
    hide Swap, MatchesAt;
    SectionStands(text, at, t);
    MatchSplit(text, CloseTag(t.name), Flat(t.rest), at + |t.name| + 5 + |Flat(t.body)|);
    MiddleSwaps(text, at, OpenTag(t.inverted, t.name), |Flat(t.body)|, with,
                CloseTag(t.name) + Flat(t.rest));
  }

  lemma MiddleSwaps(text: string, at: nat, first: string, length: nat, with: string, last: string)
    requires MatchesAt(text, first, at) && at + |first| + length <= |text|
    requires MatchesAt(text, last, at + |first| + length)
    ensures Swap(text, at + |first|, length, with)
         == Swap(text, at, |first| + length + |last|, first + (with + last))
  {
  }

  lemma SectionSwaps(text: string, at: nat, t: Template, vars: Vars)
    requires t.Section? && Sections(t.body) == 0 && MatchesAt(text, Flat(t), at)
    ensures InText(text, PairOf(t, at))
    ensures ReplacePair(text, vars, PairOf(t, at)) == Swap(text, at, |Flat(t)|, Flat(Reduce(t, vars)))
  {
    hide *;
    SectionStands(text, at, t);
    ReducedText(t, vars);
    PairOfFlat(t, at);
    var pair := PairOf(t, at);
    PairStands(text, pair);
    ReducedSection(text, vars, pair, Flat(t.body), Flat(t.rest));
  }

  lemma PairOfFlat(t: Template, at: nat)
    requires t.Section? && Sections(t.body) == 0
    ensures Sections(t) > 0
    ensures var pair := PairOf(t, at);
            && pair.0.start == at && pair.0.end == at + |t.name| + 5
            && pair.0.kind == (if t.inverted then '^' else '#') && pair.0.name == t.name
            && pair.1.start == pair.0.end + |Flat(t.body)| && pair.1.end == pair.1.start + |t.name| + 5
  {
    hide Flat;
  }

  lemma PairStands(text: string, pair: (Tag, Tag))
    requires pair.0.start <= pair.0.end <= pair.1.start <= pair.1.end <= |text|
    ensures InText(text, pair)
  {
  }

  lemma ReducedText(t: Template, vars: Vars)
    requires t.Section? && Sections(t.body) == 0
    ensures var kept := if Keeps(if t.inverted then '^' else '#', t.name, vars) then Flat(t.body) else "";
            Flat(Reduce(t, vars)) == kept + Flat(t.rest)
  {
    AppendText(t.body, t.rest);
  }

  lemma ReducedSection(text: string, vars: Vars, pair: (Tag, Tag), body: string, rest: string)
    requires InText(text, pair) && pair.1.start == pair.0.end + |body|
    requires MatchesAt(text, body, pair.0.end) && MatchesAt(text, rest, pair.1.end)
    ensures var kept := if Keeps(pair.0.kind, pair.0.name, vars) then body else "";
            ReplacePair(text, vars, pair)
            == Swap(text, pair.0.start, pair.1.end - pair.0.start + |rest|, kept + rest)
  {
  }

  /** Text and tree rewrite alike. */
  lemma RewriteOnceIsReduce(t: Template, vars: Vars)
    requires WellFormed(t)
    ensures RewriteOnce(Flat(t), vars)
         == if Sections(t) > 0 then Some(Flat(Reduce(t, vars))) else None
    ensures |TagsFrom(Flat(t), 0)| == 2 * Sections(t)
  {
    var text := Flat(t);
    assert text[0..|text|] == text;
    TreeIsScanned(text, 0, t);
    TagsOfSections(t, 0);
    assert TagsFrom(text, 0) == TagsOf(t, 0) + [];
    if Sections(t) > 0 {
      InnermostIsFound(t, 0, []);
      ReplaceIsReduce(text, 0, t, vars);
      assert Swap(text, 0, |text|, Flat(Reduce(t, vars))) == Flat(Reduce(t, vars));
    }
  }

  // ---- the renderer means what the tree means ---------------------------------------------------

  lemma {:induction false} RewriteReduces(t: Template, vars: Vars, turns: nat) returns (left: Template)
    requires WellFormed(t)
    ensures WellFormed(left) && Rewrite(Flat(t), vars, turns) == Flat(left)
    ensures Meaning(left, vars) == Meaning(t, vars)
    ensures Sections(left) == if Sections(t) <= turns then 0 else Sections(t) - turns
    decreases turns
  {
    hide RewriteOnce, Reduce, Meaning, WellFormed, Flat;
    RewriteOnceIsReduce(t, vars);
    if turns == 0 || Sections(t) == 0 {
      left := t;
    } else {
      ReduceKeepsMeaning(t, vars);
      left := RewriteReduces(Reduce(t, vars), vars, turns - 1);
    }
  }

  lemma PlainTail(run: string)
    requires Plain(run) && run != ""
    ensures Plain(run[1..])
  {
  }

  lemma CharIsCopied(text: string, vars: Vars)
    requires text != "" && !(|text| > 1 && text[0] == '{' && text[1] == '{')
    ensures Substitute(text, vars) == [text[0]] + Substitute(text[1..], vars)
  {
  }

  lemma {:induction false} RunIsCopied(run: string, after: string, vars: Vars)
    requires Plain(run)
    ensures Substitute(run + after, vars) == run + Substitute(after, vars)
    decreases |run|
  {
    if run == "" {
      assert run + after == after;
    } else {
      hide *;
      var head, tail := [run[0]], run[1..];
      PlainHead(run, after);
      CharIsCopied(run + after, vars);
      PlainTail(run);
      assert (run + after)[1..] == tail + after;
      RunIsCopied(tail, after, vars);
      Associative(head, tail, Substitute(after, vars));
      assert head + tail == run;
    }
  }

  lemma PlainHead(run: string, after: string)
    requires Plain(run) && run != ""
    ensures var text := run + after; !(|text| > 1 && text[0] == '{' && text[1] == '{')
  {
  }

  lemma VariableIsReplaced(name: string, after: string, vars: Vars)
    requires Word(name)
    ensures Substitute(VariableText(name) + after, vars) == ValueOf(name, vars) + Substitute(after, vars)
  {
    var text := VariableText(name) + after;
    assert text[0] == '{' && text[1] == '{' && text[2..2 + |name|] == name;
    forall k | 2 <= k < 2 + |name| ensures WordChar(text[k]) {
      assert text[k] == name[k - 2];
    }
    assert text[2 + |name|] == '}' && text[3 + |name|] == '}';
    WordEndsAt(text, 2, 2 + |name|);
    assert text[|name| + 4..] == after;
  }

  /** Values go in verbatim: whatever they hold, nothing in them is expanded again. */
  lemma {:induction false} SubstituteIsMeaning(t: Template, vars: Vars)
    requires WellFormed(t) && Sections(t) == 0
    ensures Substitute(Flat(t), vars) == Meaning(t, vars)
  {
    match t
    case End =>
    case Run(text, rest) =>
      RunIsCopied(text, Flat(rest), vars);
      SubstituteIsMeaning(rest, vars);
    case Variable(name, rest) =>
      VariableIsReplaced(name, Flat(rest), vars);
      SubstituteIsMeaning(rest, vars);
  }

  /** Innermost-first rewriting of the printed tree ends without a section tag exactly when there
      are at most 100 sections, and then rendering is the meaning of the tree. */
  lemma RenderIsMeaning(t: Template, vars: Vars)
    requires WellFormed(t)
    ensures var rewritten := Rewrite(Flat(t), vars, MAX_SECTIONS);
            && (TagsFrom(rewritten, 0) == [] <==> Sections(t) <= 100)
            && (Sections(t) <= 100 ==> Substitute(rewritten, vars) == Meaning(t, vars))
  {
    var left := RewriteReduces(t, vars, MAX_SECTIONS);
    RewriteOnceIsReduce(left, vars);
    if Sections(t) <= MAX_SECTIONS { SubstituteIsMeaning(left, vars); }
  }
}
