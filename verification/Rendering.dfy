/** `render_template` of `src/harness/prompt.rs` as a whole: what stripping the section-only lines does
    to a section tree, and so what the rendered prompt is in terms of the tree. */
module Rendering {
  import opened Wrappers
  import opened Text
  import opened Prompt

  // ---- the white space that is dropped -----------------------------------------------------------

  /** A line, up to and with its newline. */
  ghost predicate LineAt(text: string, s: nat, e: nat) {
    && s < e <= |text| && text[e - 1] == '\n'
    && (s == 0 || text[s - 1] == '\n')
    && forall i :: s <= i < e - 1 ==> text[i] != '\n'
  }

  /** From `p` to `q` stands a section tag, and nothing else on the line but blanks around it and
      carriage returns before the newline. */
  ghost predicate TagAlone(text: string, s: nat, p: nat, q: nat, e: nat) {
    && LineAt(text, s, e) && s <= p < q < e && IsSectionTag(text[p..q])
    && (forall i :: s <= i < p ==> text[i] == ' ' || text[i] == '\t')
    && exists r: nat :: EndsLine(text, q, r, e)
  }

  ghost predicate EndsLine(text: string, q: nat, r: nat, e: nat) {
    && q <= r < e <= |text|
    && (forall i :: q <= i < r ==> text[i] == ' ' || text[i] == '\t')
    && (forall i :: r <= i < e - 1 ==> text[i] == '\r')
  }

  /** Character `i` stands beside a section tag that is alone on its line. */
  ghost predicate Drops(text: string, i: nat) {
    exists s: nat, p: nat, q: nat, e: nat ::
      TagAlone(text, s, p, q, e) && (s <= i < p || q <= i < e)
  }

  /** What is left of a stretch of the text. */
  ghost function Kept(text: string, from: nat, to: nat): string
    requires from <= to <= |text|
    decreases |text| - from
  {
    if from == to then ""
    else (if Drops(text, from) then "" else [text[from]]) + Kept(text, from + 1, to)
  }

  lemma TagAloneEnds(text: string, s: nat, p: nat, q: nat, e: nat)
    requires TagAlone(text, s, p, q, e)
    ensures text[p] == '{' && text[q - 1] == '}'
    ensures forall i :: q <= i < e ==> text[i] in {' ', '\t', '\r', '\n'}
  {
    assert text[p..q][0] == text[p] && text[p..q][|text[p..q]| - 1] == text[q - 1];
  }

  lemma OneLine(text: string, s: nat, e: nat, s': nat, e': nat, i: nat)
    requires LineAt(text, s, e) && LineAt(text, s', e') && s <= i < e && s' <= i < e'
    ensures s == s' && e == e'
  {
  }

  lemma OneTag(text: string, s: nat, p: nat, q: nat, p': nat, q': nat, e: nat)
    requires TagAlone(text, s, p, q, e) && TagAlone(text, s, p', q', e)
    ensures p == p' && q == q'
  {
    TagAloneEnds(text, s, p, q, e);
    TagAloneEnds(text, s, p', q', e);
  }

  /** On the line of a lone tag everything but the tag is dropped. */
  lemma DropsOnTagLine(text: string, s: nat, p: nat, q: nat, e: nat, i: nat)
    requires TagAlone(text, s, p, q, e) && s <= i < e
    ensures Drops(text, i) <==> i < p || q <= i
  {
    if Drops(text, i) {
      var s': nat, p': nat, q': nat, e': nat :|
        TagAlone(text, s', p', q', e') && (s' <= i < p' || q' <= i < e');
      OneLine(text, s, e, s', e', i);
      OneTag(text, s, p, q, p', q', e);
    }
  }

  /** Nothing is dropped from another line. */
  lemma KeptOnOtherLine(text: string, s: nat, e: nat, i: nat)
    requires s <= i < e <= |text|
    requires LineAt(text, s, e) || (e == |text| && forall k :: s <= k < e ==> text[k] != '\n')
    requires forall p: nat, q: nat :: !TagAlone(text, s, p, q, e)
    ensures !Drops(text, i)
  {
    if Drops(text, i) {
      var s': nat, p: nat, q: nat, e': nat :|
        TagAlone(text, s', p, q, e') && (s' <= i < p || q <= i < e');
      if LineAt(text, s, e) { OneLine(text, s, e, s', e', i); }
      assert false;
    }
  }

  lemma DroppedIsWhite(text: string, i: nat)
    ensures Drops(text, i) ==> i < |text| && text[i] in {' ', '\t', '\r', '\n'}
  {
    if Drops(text, i) {
      var s: nat, p: nat, q: nat, e: nat :|
        TagAlone(text, s, p, q, e) && (s <= i < p || q <= i < e);
      TagAloneEnds(text, s, p, q, e);
    }
  }

  /** So no `{{` comes about that was not there. */
  lemma BraceKeepsNext(text: string, i: nat)
    requires i < |text| && text[i] == '{'
    ensures !Drops(text, i) && !Drops(text, i + 1)
  {
    DroppedIsWhite(text, i);
    if Drops(text, i + 1) {
      var s: nat, p: nat, q: nat, e: nat :|
        TagAlone(text, s, p, q, e) && (s <= i + 1 < p || q <= i + 1 < e);
      TagAloneEnds(text, s, p, q, e);
      assert false;
    }
  }

  // ---- stripping is dropping ---------------------------------------------------------------------

  lemma {:induction false} KeptSplits(text: string, a: nat, b: nat, c: nat)
    requires a <= b <= c <= |text|
    ensures Kept(text, a, c) == Kept(text, a, b) + Kept(text, b, c)
    decreases b - a
  {
    if a < b {
      KeptSplits(text, a + 1, b, c);
      hide Drops;
    }
  }

  lemma {:induction false} AllKept(text: string, from: nat, to: nat)
    requires from <= to <= |text| && forall i :: from <= i < to ==> !Drops(text, i)
    ensures Kept(text, from, to) == text[from..to]
    decreases |text| - from
  {
    hide Drops;
    if from < to {
      AllKept(text, from + 1, to);
      assert text[from..to] == [text[from]] + text[from + 1..to];
    }
  }

  lemma {:induction false} NoneKept(text: string, from: nat, to: nat)
    requires from <= to <= |text| && forall i :: from <= i < to ==> Drops(text, i)
    ensures Kept(text, from, to) == ""
    decreases |text| - from
  {
    hide Drops;
    if from < to { NoneKept(text, from + 1, to); }
  }

  lemma {:induction false} LineEndIsFirst(text: string)
    ensures var n := LineEnd(text);
            && (forall i :: 0 <= i < n - 1 ==> text[i] != '\n')
            && (n < |text| ==> n > 0 && text[n - 1] == '\n')
  {
    if text != "" && text[0] != '\n' { LineEndIsFirst(text[1..]); }
  }

  lemma {:induction false} TrimOfIsMiddle(s: string, drop: set<char>) returns (p: nat, q: nat)
    ensures p <= q <= |s| && TrimOf(s, drop) == s[p..q]
    ensures Only(s[..p], drop) && Only(s[q..], drop)
    decreases |s|
  {
    if s == "" {
      p, q := 0, 0;
    } else if s[0] in drop {
      var p', q' := TrimOfIsMiddle(s[1..], drop);
      p, q := p' + 1, q' + 1;
      assert s[1..][..p'] == s[..p][1..] && s[1..][q'..] == s[q..] && s[1..][p'..q'] == s[p..q];
      assert forall i :: 0 < i < p ==> s[..p][i] == s[..p][1..][i - 1];
    } else if s[|s| - 1] in drop {
      var init := s[..|s| - 1];
      p, q := TrimOfIsMiddle(init, drop);
      assert init[..p] == s[..p] && init[p..q] == s[p..q];
      assert s[q..] == init[q..] + [s[|s| - 1]];
    } else {
      p, q := 0, |s|;
    }
  }

  lemma {:induction false} TrimEndOfIsFront(s: string, drop: set<char>) returns (r: nat)
    ensures r <= |s| && TrimEndOf(s, drop) == s[..r] && Only(s[r..], drop)
    decreases |s|
  {
    if s != "" && s[|s| - 1] in drop {
      var init := s[..|s| - 1];
      r := TrimEndOfIsFront(init, drop);
      assert init[..r] == s[..r] && s[r..] == init[r..] + [s[|s| - 1]];
    } else {
      r := |s|;
    }
  }

  lemma LastIsTrimmed(s: string, drop: set<char>)
    requires s != "" && s[|s| - 1] in drop
    ensures |TrimEndOf(s, drop)| < |s|
  {
    var r := TrimEndOfIsFront(s[..|s| - 1], drop);
  }

  /** A line that stripping shortens holds a lone tag. */
  lemma ShortenedIsTagLine(text: string, s: nat, e: nat) returns (p: nat, q: nat)
    requires LineAt(text, s, e)
    requires IsSectionTag(TrimOf(TrimEndOf(text[s..e], {'\n', '\r'}), {' ', '\t'}))
    ensures TagAlone(text, s, p, q, e)
  {
    var line := text[s..e];
    var r := TrimEndOfIsFront(line, {'\n', '\r'});
    var p', q' := TrimOfIsMiddle(line[..r], {' ', '\t'});
    p, q := s + p', s + q';
    var front := line[..r];
    assert forall i :: 0 <= i < r ==> front[i] == text[s + i];
    assert front[p'..q'] == text[p..q];
    LastIsTrimmed(line, {'\n', '\r'});
    hide IsSectionTag, TrimOf, TrimEndOf;
    forall i | s <= i < p ensures text[i] == ' ' || text[i] == '\t' {
      assert text[s + (i - s)] == front[i - s] == front[..p'][i - s];
    }
    forall i | q <= i < s + r ensures text[i] == ' ' || text[i] == '\t' {
      assert text[s + (i - s)] == front[i - s] == front[q'..][i - q];
    }
    forall i | s + r <= i < e - 1 ensures text[i] == '\r' {
      assert text[i] == line[r..][i - s - r];
    }
    assert EndsLine(text, q, s + r, e);
  }

  lemma LineParts(text: string, s: nat, p: nat, q: nat, r: nat, e: nat)
    requires s <= p <= q <= r < e <= |text|
    ensures text[s..e] == text[s..p] + (text[p..q] + text[q..r]) + (text[r..e - 1] + text[e - 1..e])
  {
    assert text[s..r] == text[s..p] + (text[p..q] + text[q..r]);
    assert text[r..e] == text[r..e - 1] + text[e - 1..e];
    assert text[s..e] == text[s..r] + text[r..e];
  }

  lemma TagLineIsShortened(text: string, s: nat, p: nat, q: nat, e: nat)
    requires TagAlone(text, s, p, q, e)
    ensures StripLine(text[s..e]) == text[p..q]
  {
    var r: nat :| EndsLine(text, q, r, e);
    var indent, tag, blanks, carriage := text[s..p], text[p..q], text[q..r], text[r..e - 1];
    LineParts(text, s, p, q, r, e);
    assert text[e - 1..e] == "\n";
    hide *;
    TagLineIsStripped(indent, tag, blanks, carriage);
  }

  lemma TagLineKeepsTag(text: string, s: nat, p: nat, q: nat, e: nat)
    requires TagAlone(text, s, p, q, e)
    ensures Kept(text, s, e) == text[p..q]
  {
    forall i | s <= i < e ensures Drops(text, i) <==> i < p || q <= i { DropsOnTagLine(text, s, p, q, e, i); }
    hide Drops;
    NoneKept(text, s, p);
    AllKept(text, p, q);
    NoneKept(text, q, e);
    KeptSplits(text, s, p, e);
    KeptSplits(text, p, q, e);
  }

  /** One line: the function and the declarative rule leave the same of it. */
  lemma LineKeeps(text: string, s: nat, e: nat)
    requires s < e <= |text|
    requires LineAt(text, s, e) || (e == |text| && forall k :: s <= k < e ==> text[k] != '\n')
    ensures StripLine(text[s..e]) == Kept(text, s, e)
  {
    var line := text[s..e];
    if p: nat, q: nat :| TagAlone(text, s, p, q, e) {
      TagLineIsShortened(text, s, p, q, e);
      TagLineKeepsTag(text, s, p, q, e);
    } else {
      forall i | s <= i < e ensures !Drops(text, i) { KeptOnOtherLine(text, s, e, i); }
      AllKept(text, s, e);
      if StripLine(line) != line {
        assert line[|line| - 1] == text[e - 1];
        var p, q := ShortenedIsTagLine(text, s, e);
      }
    }
  }

  lemma {:induction false} StrippedFrom(text: string, s: nat)
    requires s <= |text| && (s == 0 || text[s - 1] == '\n')
    ensures StripSectionOnlyLines(text[s..]) == Kept(text, s, |text|)
    decreases |text| - s
  {
    if s < |text| {
      var here := text[s..];
      var n := LineEnd(here);
      var e := s + n;
      LineEndIsFirst(here);
      assert forall i :: s <= i < e ==> text[i] == here[i - s];
      assert here[..n] == text[s..e] && here[n..] == text[e..];
      hide Kept, LineEnd, StripLine;
      LineKeeps(text, s, e);
      if e < |text| {
        StrippedFrom(text, e);
      } else {
        StripNothing();
        assert Kept(text, e, |text|) == "" by { NoneKept(text, e, e); }
      }
      KeptSplits(text, s, e, |text|);
    }
  }

  lemma StripNothing()
    ensures StripSectionOnlyLines("") == ""
  {
  }

  /** `strip_section_only_lines` drops exactly the white space beside the tags alone on their lines. */
  lemma StripIsDrop(text: string)
    ensures StripSectionOnlyLines(text) == Kept(text, 0, |text|)
  {
    assert text[0..] == text;
    StrippedFrom(text, 0);
  }

  // ---- the stripped tree -------------------------------------------------------------------------

  /** The tree printed at `at`, its runs without the white space that is dropped. */
  ghost function Stripped(t: Template, text: string, at: nat): Template
    requires at + |Flat(t)| <= |text|
  {
    match t
    case End => End
    case Run(run, rest) => Run(Kept(text, at, at + |run|), Stripped(rest, text, at + |run|))
    case Variable(name, rest) => Variable(name, Stripped(rest, text, at + |name| + 4))
    case Section(inverted, name, body, rest) =>
      var open := at + |name| + 5;
      var close := open + |Flat(body)|;
      Section(inverted, name, Stripped(body, text, open), Stripped(rest, text, close + |name| + 5))
  }

  /** No character of a tag or a variable is white. */
  lemma SolidIsKept(text: string, solid: string, at: nat)
    requires MatchesAt(text, solid, at)
    requires forall i :: 0 <= i < |solid| ==> solid[i] !in {' ', '\t', '\r', '\n'}
    ensures Kept(text, at, at + |solid|) == solid
  {
    forall i | at <= i < at + |solid| ensures !Drops(text, i) {
      MatchChar(text, solid, at, i - at);
      DroppedIsWhite(text, i);
    }
    AllKept(text, at, at + |solid|);
  }

  lemma WordIsSolid(name: string)
    requires Word(name)
    ensures forall i :: 0 <= i < |name| ==> name[i] !in {' ', '\t', '\r', '\n'}
  {
    forall i | 0 <= i < |name| ensures name[i] !in {' ', '\t', '\r', '\n'} {
      assert WordChar(name[i]);
    }
  }

  lemma TagsAreSolid(inverted: bool, name: string)
    requires Word(name)
    ensures forall s <- [OpenTag(inverted, name), CloseTag(name), VariableText(name)] ::
              forall i :: 0 <= i < |s| ==> s[i] !in {' ', '\t', '\r', '\n'}
  {
    WordIsSolid(name);
  }

  /** The stripped tree prints as what is left of the text. */
  lemma {:induction false} StrippedPrints(t: Template, text: string, at: nat)
    requires WellFormed(t) && MatchesAt(text, Flat(t), at)
    ensures Flat(Stripped(t, text, at)) == Kept(text, at, at + |Flat(t)|)
    decreases t
  {
    hide Kept, OpenTag, CloseTag, VariableText, Plain, Word, MatchesAt, Drops;
    MatchFits(text, Flat(t), at);
    match t
    case End =>
      NoneKept(text, at, at);
    case Run(run, rest) =>
      MatchSplit(text, run, Flat(rest), at);
      StrippedPrints(rest, text, at + |run|);
      KeptSplits(text, at, at + |run|, at + |run| + |Flat(rest)|);
    case Variable(name, rest) =>
      VariableLength(name);
      MatchSplit(text, VariableText(name), Flat(rest), at);
      StrippedPrints(rest, text, at + |name| + 4);
      TagsAreSolid(false, name);
      SolidIsKept(text, VariableText(name), at);
      KeptSplits(text, at, at + |name| + 4, at + |name| + 4 + |Flat(rest)|);
    case Section(_, _, _, _) =>
      SectionPrints(t, text, at);
  }

  lemma VariableLength(name: string)
    ensures |VariableText(name)| == |name| + 4
  {
  }

  lemma {:induction false} SectionPrints(t: Template, text: string, at: nat)
    requires t.Section? && WellFormed(t) && MatchesAt(text, Flat(t), at)
    ensures Flat(Stripped(t, text, at)) == Kept(text, at, at + |Flat(t)|)
    decreases t, 0
  {
    hide *;
    SectionStands(text, at, t);
    SectionParts(t, at);
    FlatParts(t);
    var open := at + |t.name| + 5;
    var close := open + |Flat(t.body)|;
    var end := close + |t.name| + 5;
    StrippedParts(t, text, at);
    StrippedPrints(t.body, text, open);
    StrippedPrints(t.rest, text, end);
    TagsAreSolid(t.inverted, t.name);
    SolidIsKept(text, OpenTag(t.inverted, t.name), at);
    SolidIsKept(text, CloseTag(t.name), close);
    KeptSplits(text, close, end, end + |Flat(t.rest)|);
    KeptSplits(text, open, close, end + |Flat(t.rest)|);
    KeptSplits(text, at, open, end + |Flat(t.rest)|);
  }

  lemma StrippedParts(t: Template, text: string, at: nat)
    requires t.Section? && at + |Flat(t)| <= |text|
    ensures var open := at + |t.name| + 5;
            var close := open + |Flat(t.body)|;
            var end := close + |t.name| + 5;
            && end + |Flat(t.rest)| == at + |Flat(t)|
            && Flat(Stripped(t, text, at))
            == OpenTag(t.inverted, t.name)
               + (Flat(Stripped(t.body, text, open))
                  + (CloseTag(t.name) + Flat(Stripped(t.rest, text, end))))
  {
    FlatParts(t);
    hide Kept, OpenTag, CloseTag;
  }

  /** A run that cannot complete a `{{` still cannot without its white space. */
  lemma {:induction false} KeptIsPlain(text: string, from: nat, to: nat)
    requires from <= to <= |text|
    requires forall i :: from <= i < to && text[i] == '{' ==> i + 1 < to && text[i + 1] != '{'
    ensures Plain(Kept(text, from, to))
    decreases |text| - from
  {
    if from < to {
      KeptIsPlain(text, from + 1, to);
      if text[from] == '{' { BraceKeepsNext(text, from); }
      hide Drops;
      assert Kept(text, from, to)
          == (if Drops(text, from) then "" else [text[from]]) + Kept(text, from + 1, to);
    }
  }

  lemma RunKeptIsPlain(text: string, at: nat, run: string)
    requires Plain(run) && MatchesAt(text, run, at)
    ensures Plain(Kept(text, at, at + |run|))
  {
    forall i | at <= i < at + |run| && text[i] == '{' ensures i + 1 < at + |run| && text[i + 1] != '{' {
      MatchChar(text, run, at, i - at);
      if i + 1 < at + |run| { MatchChar(text, run, at, i + 1 - at); }
    }
    KeptIsPlain(text, at, at + |run|);
  }

  /** And it is a tree of the same sections. */
  lemma {:induction false} StrippedIsWellFormed(t: Template, text: string, at: nat)
    requires WellFormed(t) && MatchesAt(text, Flat(t), at)
    ensures WellFormed(Stripped(t, text, at)) && Sections(Stripped(t, text, at)) == Sections(t)
    decreases t
  {
    hide Kept, OpenTag, CloseTag, VariableText, Plain, Word, MatchesAt;
    match t
    case End =>
    case Run(run, rest) =>
      MatchSplit(text, run, Flat(rest), at);
      StrippedIsWellFormed(rest, text, at + |run|);
      RunKeptIsPlain(text, at, run);
    case Variable(name, rest) =>
      VariableLength(name);
      MatchSplit(text, VariableText(name), Flat(rest), at);
      StrippedIsWellFormed(rest, text, at + |name| + 4);
    case Section(_, name, body, rest) =>
      SectionStands(text, at, t);
      StrippedIsWellFormed(body, text, at + |name| + 5);
      StrippedIsWellFormed(rest, text, at + |name| + 5 + |Flat(body)| + |name| + 5);
  }

  // ---- rendering ---------------------------------------------------------------------------------

  /** The characters that are not white. */
  function Ink(s: string): nat {
    if s == "" then 0 else (if IsWhite(s[0]) then 0 else 1) + Ink(s[1..])
  }

  lemma {:induction false} InkOfBoth(a: string, b: string)
    ensures Ink(a + b) == Ink(a) + Ink(b)
  {
    if a == "" {
      assert a + b == b;
    } else {
      assert (a + b)[1..] == a[1..] + b;
      InkOfBoth(a[1..], b);
    }
  }

  lemma {:induction false} UnixKeepsInk(s: string)
    ensures Ink(UnixLines(s)) == Ink(s)
  {
    if s != "" {
      if StartsWith(s, "\r\n") {
        assert s[0] == '\r' && s[1] == '\n' && s[1..][1..] == s[2..];
        UnixKeepsInk(s[2..]);
      } else {
        UnixKeepsInk(s[1..]);
      }
    }
  }

  lemma {:induction false} CollapseKeepsInk(s: string, newlines: nat)
    ensures Ink(Collapse(s, newlines)) == Ink(s)
    decreases s
  {
    if s != "" {
      var more := if s[0] == '\n' then newlines + 1 else 0;
      CollapseKeepsInk(s[1..], more);
      if s[0] != '\n' || newlines < 2 {
        assert Collapse(s, newlines) == [s[0]] + Collapse(s[1..], more);
        assert Collapse(s, newlines)[1..] == Collapse(s[1..], more);
      } else {
        assert Collapse(s, newlines) == "" + Collapse(s[1..], more) == Collapse(s[1..], more);
      }
    }
  }

  lemma {:induction false} TrimStartKeepsInk(s: string)
    ensures Ink(TrimStart(s)) == Ink(s)
  {
    if s != "" && IsWhite(s[0]) { TrimStartKeepsInk(s[1..]); }
  }

  lemma {:induction false} TrimEndKeepsInk(s: string)
    ensures Ink(TrimEnd(s)) == Ink(s)
  {
    if s != "" && IsWhite(s[|s| - 1]) {
      var init, last := s[..|s| - 1], [s[|s| - 1]];
      TrimEndKeepsInk(init);
      assert s == init + last;
      InkOfBoth(init, last);
    }
  }

  /** Tidying moves white space only. */
  lemma TidyKeepsInk(value: string)
    ensures Ink(Tidy(value)) == Ink(value)
  {
    UnixKeepsInk(value);
    CollapseKeepsInk(UnixLines(value), 0);
    TrimStartKeepsInk(Collapse(UnixLines(value), 0));
    TrimEndKeepsInk(TrimStart(Collapse(UnixLines(value), 0)));
    hide Ink, Collapse, UnixLines, TrimStart, TrimEnd;
  }

  /** What substitution makes of a tree that still has sections: their tags stay as they are. */
  function Loose(t: Template, vars: Vars): string {
    match t
    case End => ""
    case Run(text, rest) => text + Loose(rest, vars)
    case Variable(name, rest) => ValueOf(name, vars) + Loose(rest, vars)
    case Section(inverted, name, body, rest) =>
      OpenTag(inverted, name) + (Loose(body, vars) + (CloseTag(name) + Loose(rest, vars)))
  }

  lemma TagIsCopied(kind: char, name: string, after: string, vars: Vars)
    requires kind in ['#', '^', '/'] && Word(name)
    ensures var tag := "{{" + ([kind] + (name + "}}"));
            Substitute(tag + after, vars) == tag + Substitute(after, vars)
  {
    var inner := [kind] + (name + "}}");
    var text := "{{" + inner + after;
    assert text[..2] == "{{" && text[2..] == inner + after && text[2] == kind;
    assert !WordChar(kind) && WordEnd(text, 2) == 2;
    assert VariableTag(text) == None;
    SubstituteStep(text, vars);
    forall i | 0 <= i < |inner| ensures inner[i] != '{' {
      if 1 <= i <= |name| { assert inner[i] == name[i - 1] && WordChar(name[i - 1]); }
    }
    assert Plain(inner);
    hide Substitute, VariableTag, Word, Plain;
    RunIsCopied(inner, after, vars);
    Associative("{{", inner, Substitute(after, vars));
  }

  lemma SubstituteNothing(vars: Vars)
    ensures Substitute("", vars) == ""
  {
  }

  /** Substitution goes through a printed tree, sections and all, and on to what follows it. */
  lemma {:induction false} SubstituteGoesOn(t: Template, after: string, vars: Vars)
    requires WellFormed(t)
    ensures Substitute(Flat(t) + after, vars) == Loose(t, vars) + Substitute(after, vars)
    decreases t
  {
    hide Substitute, ValueOf, OpenTag, CloseTag, VariableText, Plain, Word;
    var last := Substitute(after, vars);
    match t
    case End =>
      assert "" + after == after && "" + last == last;
    case Run(text, rest) =>
      Associative(text, Flat(rest), after);
      RunIsCopied(text, Flat(rest) + after, vars);
      SubstituteGoesOn(rest, after, vars);
      Associative(text, Loose(rest, vars), last);
    case Variable(name, rest) =>
      Associative(VariableText(name), Flat(rest), after);
      VariableIsReplaced(name, Flat(rest) + after, vars);
      SubstituteGoesOn(rest, after, vars);
      Associative(ValueOf(name, vars), Loose(rest, vars), last);
    case Section(inverted, name, body, rest) =>
      var open, close := OpenTag(inverted, name), CloseTag(name);
      Regroup(open, Flat(body), close, Flat(rest), after);
      Regroup(open, Loose(body, vars), close, Loose(rest, vars), last);
      SubstituteGoesOn(rest, after, vars);
      TagsAreCopied(t, close + (Flat(rest) + after), Flat(rest) + after, vars);
      SubstituteGoesOn(body, close + (Flat(rest) + after), vars);
      TagsAreCopied(t, Flat(body) + (close + (Flat(rest) + after)), Flat(rest) + after, vars);
      var end := close + (Loose(rest, vars) + last);
      Associative(Loose(body, vars), end, "");
  }

  lemma TagsAreCopied(t: Template, afterOpen: string, afterClose: string, vars: Vars)
    requires t.Section? && Word(t.name)
    ensures Substitute(OpenTag(t.inverted, t.name) + afterOpen, vars)
         == OpenTag(t.inverted, t.name) + Substitute(afterOpen, vars)
    ensures Substitute(CloseTag(t.name) + afterClose, vars) == CloseTag(t.name) + Substitute(afterClose, vars)
  {
    TagIsCopied(if t.inverted then '^' else '#', t.name, afterOpen, vars);
    TagIsCopied('/', t.name, afterClose, vars);
    hide Substitute;
  }

  lemma TagsHaveInk(inverted: bool, name: string)
    ensures Ink(OpenTag(inverted, name)) >= 1
  {
    assert OpenTag(inverted, name)[0] == '{';
  }

  /** Tags that are left, and bodies that should have gone, are ink the meaning does not have. */
  lemma {:induction false} LooseHasMore(t: Template, vars: Vars)
    ensures Ink(Loose(t, vars)) >= Ink(Meaning(t, vars)) + Sections(t)
  {
    hide Ink, OpenTag, CloseTag, IsSet;
    match t
    case End =>
    case Run(text, rest) =>
      LooseHasMore(rest, vars);
      InkOfBoth(text, Loose(rest, vars));
      InkOfBoth(text, Meaning(rest, vars));
    case Variable(name, rest) =>
      LooseHasMore(rest, vars);
      InkOfBoth(ValueOf(name, vars), Loose(rest, vars));
      InkOfBoth(ValueOf(name, vars), Meaning(rest, vars));
      assert Meaning(t, vars) == ValueOf(name, vars) + Meaning(rest, vars);
    case Section(inverted, name, body, rest) =>
      LooseHasMore(body, vars);
      LooseHasMore(rest, vars);
      TagsHaveInk(inverted, name);
      var kept := if IsSet(name, vars) != inverted then Meaning(body, vars) else "";
      NoInk();
      InkOfBoth(kept, Meaning(rest, vars));
      InkOfBoth(CloseTag(name), Loose(rest, vars));
      InkOfBoth(Loose(body, vars), CloseTag(name) + Loose(rest, vars));
      InkOfBoth(OpenTag(inverted, name), Loose(body, vars) + (CloseTag(name) + Loose(rest, vars)));
  }

  lemma NoInk()
    ensures Ink("") == 0
  {
  }

  /** Past the limit the text that is rendered is never the tree's meaning. */
  lemma LimitShows(t: Template, vars: Vars)
    requires WellFormed(t) && Sections(t) > 100
    ensures Tidy(Substitute(Rewrite(Flat(t), vars, MAX_SECTIONS), vars)) != Tidy(Meaning(t, vars))
  {
    var left := RewriteReduces(t, vars, MAX_SECTIONS);
    hide *;
    assert Flat(left) + "" == Flat(left);
    SubstituteGoesOn(left, "", vars);
    SubstituteNothing(vars);
    assert Loose(left, vars) + "" == Loose(left, vars);
    LooseHasMore(left, vars);
    TidyKeepsInk(Loose(left, vars));
    TidyKeepsInk(Meaning(left, vars));
  }

  /** Rendering a printed tree: its section-only lines give up their white space, sections are kept or
      dropped as a whole, values go in as they are, and the result is tidied, if and only if there are at
      most 100 sections. Past that a section tag is left, and the text is not the tree's meaning. */
  lemma RenderingIsMeaning(t: Template, vars: Vars)
    requires WellFormed(t)
    ensures var stripped := Stripped(t, Flat(t), 0);
            var rewritten := Rewrite(StripSectionOnlyLines(Flat(t)), vars, MAX_SECTIONS);
            && Flat(stripped) == StripSectionOnlyLines(Flat(t)) == Kept(Flat(t), 0, |Flat(t)|)
            && (TagsFrom(rewritten, 0) == [] <==> Sections(t) <= 100)
            && (Rendered(Flat(t), vars) == Tidy(Meaning(stripped, vars)) <==> Sections(t) <= 100)
  {
    hide *;
    var text := Flat(t);
    WholeMatches(text);
    StrippedPrints(t, text, 0);
    StrippedIsWellFormed(t, text, 0);
    StripIsDrop(text);
    RenderIsMeaning(Stripped(t, text, 0), vars);
    RenderedIs(text, vars);
    if Sections(t) > 100 { LimitShows(Stripped(t, text, 0), vars); }
  }

  lemma WholeMatches(text: string)
    ensures MatchesAt(text, text, 0)
  {
    assert text[0..|text|] == text;
  }

  lemma RenderedIs(template: string, vars: Vars)
    ensures Rendered(template, vars)
         == Tidy(Substitute(Rewrite(StripSectionOnlyLines(template), vars, MAX_SECTIONS), vars))
  {
  }
}
