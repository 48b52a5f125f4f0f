/** `src/harness/git.rs`: the names of run branches, and what the branch a run starts on decides. */
module Git {
  import opened Wrappers
  import opened Text

  const RUN_BRANCH_PREFIX := "harness/run-"
  const SLUG_LENGTH := 48

  // ---- slugs ------------------------------------------------------------------------------------

  predicate Alphanumeric(c: char) {
    'a' <= c <= 'z' || 'A' <= c <= 'Z' || '0' <= c <= '9'
  }

  predicate SlugChar(c: char) {
    'a' <= c <= 'z' || '0' <= c <= '9'
  }

  /** What is assumed of `str::to_lowercase`: no ASCII capital is left, and text that is already
      lower-case ASCII is unchanged. */
  ghost predicate Lowercases(lower: string -> string) {
    && (forall s, c | c in lower(s) :: !('A' <= c <= 'Z'))
    && (forall s :: (forall c <- s :: SlugChar(c) || c == '-') ==> lower(s) == s)
  }

  datatype Slugging = Slugging(slug: string, pendingDash: bool)

  function SlugStep(s: Slugging, ch: char): Slugging {
    if Alphanumeric(ch) then
      Slugging(s.slug + (if s.pendingDash && s.slug != "" then "-" else "") + [ch], false)
    else Slugging(s.slug, true)
  }

  /** The slug built from the characters read so far. */
  function Sluggify(chars: string): Slugging {
    if chars == "" then Slugging("", false)
    else SlugStep(Sluggify(chars[..|chars| - 1]), chars[|chars| - 1])
  }

  function TrimDashes(s: string): string
    decreases |s|
  {
    if s == "" then ""
    else if s[0] == '-' then TrimDashes(s[1..])
    else if s[|s| - 1] == '-' then TrimDashes(s[..|s| - 1])
    else s
  }

  function Slug(value: string, lower: string -> string): string {
    var whole := Sluggify(lower(Trim(value))).slug;
    var slug := TrimDashes(if |whole| <= SLUG_LENGTH then whole else whole[..SLUG_LENGTH]);
    if slug == "" then "feature" else slug
  }

  /** `slugify`. */
  method Slugify(value: string, lower: string -> string) returns (slug: string)
    ensures slug == Slug(value, lower)
  {
    slug := "";
    var pendingDash := false;
    var chars := lower(Trim(value));
    for i := 0 to |chars|
      invariant Slugging(slug, pendingDash) == Sluggify(chars[..i])
    {
      SluggifyNext(chars, i);
      var ch := chars[i];
      if Alphanumeric(ch) {
        if pendingDash && slug != "" {
          slug := slug + "-";
        }
        pendingDash := false;
        slug := slug + [ch];
      } else {
        pendingDash := true;
      }
    }
    assert chars[..|chars|] == chars;
    slug := TrimDashes(if |slug| <= SLUG_LENGTH then slug else slug[..SLUG_LENGTH]);
    if slug == "" {
      slug := "feature";
    }
  }

  lemma SluggifyNext(chars: string, i: nat)
    requires i < |chars|
    ensures Sluggify(chars[..i + 1]) == SlugStep(Sluggify(chars[..i]), chars[i])
  {
    assert chars[..i + 1][..i] == chars[..i];
  }

  /** No leading, trailing or doubled dash, and nothing but lower-case letters and digits besides. */
  ghost predicate Tidy(s: string) {
    && (forall i :: 0 <= i < |s| ==> SlugChar(s[i]) || s[i] == '-')
    && (forall i :: 0 <= i < |s| && s[i] == '-' ==> 0 < i < |s| - 1 && s[i + 1] != '-')
  }

  ghost predicate IsSlug(s: string) {
    1 <= |s| <= 48 && Tidy(s)
  }

  lemma {:induction false} SluggifyIsTidy(chars: string)
    requires forall i :: 0 <= i < |chars| ==> !('A' <= chars[i] <= 'Z')
    ensures Tidy(Sluggify(chars).slug)
  {
    if chars != "" {
      SluggifyIsTidy(chars[..|chars| - 1]);
    }
  }

  lemma PrefixTrims(s: string, n: nat)
    requires Tidy(s) && 0 < n <= |s|
    ensures TrimDashes(s[..n]) != "" && Tidy(TrimDashes(s[..n])) && |TrimDashes(s[..n])| <= n
  {
  }

  /** Whatever the spec is called, its slug is one. */
  lemma SlugsAreSlugs(value: string, lower: string -> string)
    requires Lowercases(lower)
    ensures IsSlug(Slug(value, lower))
  {
    var chars := lower(Trim(value));
    var whole := Sluggify(chars).slug;
    forall i | 0 <= i < |chars| ensures !('A' <= chars[i] <= 'Z') {
      assert chars[i] in lower(Trim(value));
    }
    SluggifyIsTidy(chars);
    if whole == "" {
      assert TrimDashes("") == "";
      assert Tidy("feature");
    } else {
      var n := if |whole| <= SLUG_LENGTH then |whole| else SLUG_LENGTH;
      assert whole[..|whole|] == whole;
      PrefixTrims(whole, n);
    }
  }

  lemma {:induction false} TidyIsUnchanged(s: string, n: nat)
    requires Tidy(s) && n <= |s|
    ensures Sluggify(s[..n]) == if n > 0 && s[n - 1] == '-' then Slugging(s[..n - 1], true)
                                else Slugging(s[..n], false)
  {
    if n > 0 {
      TidyIsUnchanged(s, n - 1);
      assert s[..n][..n - 1] == s[..n - 1];
      if s[n - 1] != '-' && n > 1 && s[n - 2] == '-' {
        assert s[..n - 2] + "-" + [s[n - 1]] == s[..n];
      }
    }
  }

  /** Slugging a slug changes nothing. */
  lemma SlugIsIdempotent(s: string, lower: string -> string)
    requires Lowercases(lower) && IsSlug(s)
    ensures Slug(s, lower) == s
  {
    forall c | c in s ensures SlugChar(c) || c == '-' {
      var i :| 0 <= i < |s| && s[i] == c;
    }
    assert TrimStart(s) == s && TrimEnd(s) == s;
    TidyIsUnchanged(s, |s|);
    assert s[..|s|] == s;
  }

  // ---- what a slug keeps of a name --------------------------------------------------------------

  ghost predicate IsWord(s: string) {
    s != "" && forall i :: 0 <= i < |s| ==> IsAlnum(s[i])
  }

  ghost predicate IsGap(s: string) {
    s != "" && forall i :: 0 <= i < |s| ==> !IsAlnum(s[i])
  }

  /** An ASCII letter or digit. */
  predicate IsAlnum(c: char) {
    var code := c as int;
    48 <= code <= 57 || 65 <= code <= 90 || 97 <= code <= 122
  }

  /** Words, with a gap before each but possibly the first, and a gap or nothing at the end. */
  ghost predicate Spelled(words: seq<string>, gaps: seq<string>) {
    && |gaps| == |words| + 1
    && (forall i :: 0 <= i < |words| ==> IsWord(words[i]))
    && (forall i :: 0 < i < |words| ==> IsGap(gaps[i]))
    && (gaps[0] == "" || IsGap(gaps[0])) && (gaps[|words|] == "" || IsGap(gaps[|words|]))
  }

  function Spelling(words: seq<string>, gaps: seq<string>): string
    requires |gaps| == |words| + 1
  {
    if |words| == 0 then gaps[0]
    else Spelling(words[..|words| - 1], gaps[..|words|]) + words[|words| - 1] + gaps[|words|]
  }

  lemma LongerWord(words: seq<string>, gaps: seq<string>, c: char)
    requires Spelled(words, gaps) && |words| > 0 && gaps[|words|] == "" && IsAlnum(c)
    ensures var n := |words| - 1;
            var more := words[..n] + [words[n] + [c]];
            Spelled(more, gaps) && Spelling(more, gaps) == Spelling(words, gaps) + [c]
  {
    var n := |words| - 1;
    var more := words[..n] + [words[n] + [c]];
    assert more[..n] == words[..n];
    hide IsGap, IsAlnum;
    assert IsWord(words[n] + [c]);
  }

  lemma AnotherWord(words: seq<string>, gaps: seq<string>, c: char)
    requires Spelled(words, gaps) && (|words| > 0 ==> gaps[|words|] != "") && IsAlnum(c)
    ensures Spelled(words + [[c]], gaps + [""])
    ensures Spelling(words + [[c]], gaps + [""]) == Spelling(words, gaps) + [c]
  {
    assert (words + [[c]])[..|words|] == words && (gaps + [""])[..|words| + 1] == gaps;
    hide IsGap, IsAlnum;
    assert IsWord([c]);
  }

  /** Every text is spelled so. */
  lemma {:induction false} EveryTextIsSpelled(text: string) returns (words: seq<string>, gaps: seq<string>)
    ensures Spelled(words, gaps) && Spelling(words, gaps) == text
  {
    if text == "" {
      words, gaps := [], [""];
    } else {
      var c := text[|text| - 1];
      var w, g := EveryTextIsSpelled(text[..|text| - 1]);
      var n := |w|;
      assert text == text[..|text| - 1] + [c];
      if !IsAlnum(c) {
        words, gaps := w, g[..n] + [g[n] + [c]];
        if n > 0 { assert gaps[..n] == g[..n]; }
      } else if n > 0 && g[n] == "" {
        words, gaps := w[..n - 1] + [w[n - 1] + [c]], g;
        LongerWord(w, g, c);
      } else {
        words, gaps := w + [[c]], g + [""];
        AnotherWord(w, g, c);
      }
    }
  }

  function Dashed(words: seq<string>): string {
    if |words| == 0 then ""
    else if |words| == 1 then words[0]
    else Dashed(words[..|words| - 1]) + "-" + words[|words| - 1]
  }

  lemma {:induction false} GapPends(text: string, gap: string)
    requires IsGap(gap)
    ensures Sluggify(text + gap) == Slugging(Sluggify(text).slug, true)
  {
    var n := |gap| - 1;
    assert (text + gap)[..|text| + n] == text + gap[..n];
    if n > 0 { GapPends(text, gap[..n]); } else { assert text + gap[..n] == text; }
  }

  lemma {:induction false} WordJoins(text: string, word: string)
    requires IsWord(word)
    ensures var before := Sluggify(text);
            Sluggify(text + word)
            == Slugging(before.slug + (if before.pendingDash && before.slug != "" then "-" else "") + word, false)
  {
    var n := |word| - 1;
    assert (text + word)[..|text| + n] == text + word[..n];
    if n > 0 {
      WordJoins(text, word[..n]);
      assert word == word[..n] + [word[n]];
    } else {
      assert text + word[..n] == text && word == [word[0]];
    }
  }

  lemma {:induction false} WordsAreDashed(words: seq<string>, gaps: seq<string>)
    requires Spelled(words, gaps)
    ensures var whole := Sluggify(Spelling(words, gaps));
            whole.slug == Dashed(words) && (whole.pendingDash <==> gaps[|words|] != "")
    decreases |words|
  {
    var text := Spelling(words, gaps);
    var n := |words|;
    if n == 0 {
      if text != "" {
        GapPends("", text);
        assert "" + text == text;
      }
    } else {
      var earlier := Spelling(words[..n - 1], gaps[..n]);
      WordsAreDashed(words[..n - 1], gaps[..n]);
      WordJoins(earlier, words[n - 1]);
      DashedNotEmpty(words[..n - 1]);
      if gaps[n] == "" {
        assert text == earlier + words[n - 1];
      } else {
        GapPends(earlier + words[n - 1], gaps[n]);
      }
    }
  }

  lemma DashedNotEmpty(words: seq<string>)
    requires forall i :: 0 <= i < |words| ==> IsWord(words[i])
    ensures Dashed(words) == "" <==> |words| == 0
  {
  }

  /** A slug is the words of the lower-cased name between dashes; of one over 48 characters the first 48, less
      a dash they end in; of a name without words `feature`. */
  lemma SlugKeepsWords(value: string, lower: string -> string, words: seq<string>, gaps: seq<string>)
    requires Lowercases(lower) && Spelled(words, gaps) && lower(Trim(value)) == Spelling(words, gaps)
    ensures var whole := Dashed(words);
            Slug(value, lower)
            == if |words| == 0 then "feature"
               else if |whole| <= 48 then whole
               else if whole[47] == '-' then whole[..47]
               else whole[..48]
  {
    WordsAreDashed(words, gaps);
    DashedNotEmpty(words);
    var chars := lower(Trim(value));
    forall i | 0 <= i < |chars| ensures !('A' <= chars[i] <= 'Z') { assert chars[i] in lower(Trim(value)); }
    SluggifyIsTidy(chars);
    var whole := Dashed(words);
    if |words| > 0 {
      var n := if |whole| <= 48 then |whole| else 48;
      assert whole[..|whole|] == whole;
      CutTrims(whole, n);
    }
  }

  lemma CutTrims(s: string, n: nat)
    requires Tidy(s) && 0 < n <= |s|
    ensures TrimDashes(s[..n]) == if s[n - 1] == '-' then s[..n - 1] else s[..n]
  {
    assert n > 1 ==> s[..n][..n - 1] == s[..n - 1];
  }

  // ---- branch names -----------------------------------------------------------------------------

  predicate Hex(s: string) {
    forall i :: 0 <= i < |s| ==> '0' <= s[i] <= '9' || 'a' <= s[i] <= 'f' || 'A' <= s[i] <= 'F'
  }

  /** Digits of base sixteen, in either case. */
  lemma HexIs(s: string)
    ensures Hex(s) <==> forall c <- s :: c in "0123456789abcdefABCDEF"
  {
    forall c ensures c in "0123456789abcdefABCDEF"
                     <==> '0' <= c <= '9' || 'a' <= c <= 'f' || 'A' <= c <= 'F' { HexDigits(c); }
    if Hex(s) {
      forall c | c in s ensures c in "0123456789abcdefABCDEF" { var i :| 0 <= i < |s| && s[i] == c; }
    }
    if forall c <- s :: c in "0123456789abcdefABCDEF" {
      forall i | 0 <= i < |s| ensures '0' <= s[i] <= '9' || 'a' <= s[i] <= 'f' || 'A' <= s[i] <= 'F' {
        assert s[i] in s;
      }
    }
  }

  lemma HexDigits(c: char)
    ensures c in "0123456789abcdefABCDEF" <==> '0' <= c <= '9' || 'a' <= c <= 'f' || 'A' <= c <= 'F'
  {
    var all := "0123456789abcdefABCDEF";
    if '0' <= c <= '9' { assert all[c as int - 48] == c; }
    if 'a' <= c <= 'f' { assert all[c as int - 87] == c; }
    if 'A' <= c <= 'F' { assert all[c as int - 49] == c; }
  }

  datatype ParsedBranch = ParsedBranch(specSlug: string, shortId: string)

  /** `run_branch_name`. */
  function RunBranchName(specName: string, shortId: string, lower: string -> string): string {
    RUN_BRANCH_PREFIX + (Slug(specName, lower) + ("-" + shortId))
  }

  /** `rfind('-')`. */
  function LastDash(s: string): (r: Option<nat>)
    ensures r.Some? ==> r.value < |s| && s[r.value] == '-'
    ensures forall i :: (if r.Some? then r.value + 1 else 0) <= i < |s| ==> s[i] != '-'
  {
    if s == "" then None
    else if s[|s| - 1] == '-' then Some(|s| - 1)
    else LastDash(s[..|s| - 1])
  }

  /** `parse_harness_branch`. */
  function ParseHarnessBranch(branch: Option<string>): Option<ParsedBranch> {
    if branch.None? || !StartsWith(branch.value, RUN_BRANCH_PREFIX) then None
    else ParseSlugAndId(branch.value[|RUN_BRANCH_PREFIX|..])
  }

  function ParseSlugAndId(rest: string): Option<ParsedBranch> {
    match LastDash(rest)
    case None => None
    case Some(dash) =>
      if dash == 0 || dash == |rest| - 1 then None
      else if !Hex(rest[dash + 1..]) then None
      else Some(ParsedBranch(rest[..dash], rest[dash + 1..]))
  }

  /** A branch parses exactly when it is the prefix, a nonempty slug, a dash and a nonempty hex id;
      the parts are then unique. */
  lemma ParsesExactly(branch: string, slug: string, id: string)
    ensures ParseHarnessBranch(Some(branch)) == Some(ParsedBranch(slug, id))
            <==> slug != "" && id != "" && Hex(id)
                 && branch == "harness/run-" + (slug + ("-" + id))
  {
    hide LastDash;
    if ParseHarnessBranch(Some(branch)) == Some(ParsedBranch(slug, id)) {
      var rest := branch[|RUN_BRANCH_PREFIX|..];
      var dash := LastDash(rest).value;
      assert rest == rest[..dash] + ("-" + rest[dash + 1..]);
      assert branch == branch[..|RUN_BRANCH_PREFIX|] + rest;
    }
    if slug != "" && id != "" && Hex(id) && branch == RUN_BRANCH_PREFIX + (slug + ("-" + id)) {
      PrintedBranchParses(slug, id);
    }
  }

  lemma PrintedBranchParses(slug: string, id: string)
    requires slug != "" && id != "" && Hex(id)
    ensures ParseHarnessBranch(Some(RUN_BRANCH_PREFIX + (slug + ("-" + id))))
         == Some(ParsedBranch(slug, id))
  {
    var rest := slug + ("-" + id);
    PrefixThenRest(RUN_BRANCH_PREFIX, rest);
    LastDashIsBeforeId(slug, id);
    assert rest[..|slug|] == slug && rest[|slug| + 1..] == id;
  }

  lemma PrefixThenRest(prefix: string, rest: string)
    ensures StartsWith(prefix + rest, prefix) && (prefix + rest)[|prefix|..] == rest
  {
  }

  lemma {:induction false} LastDashIsBeforeId(slug: string, id: string)
    requires Hex(id)
    ensures LastDash(slug + ("-" + id)) == Some(|slug|)
  {
    var rest := slug + ("-" + id);
    if id != "" {
      assert rest[..|rest| - 1] == slug + ("-" + id[..|id| - 1]);
      LastDashIsBeforeId(slug, id[..|id| - 1]);
    }
  }

  datatype Reason =
    | ExplicitContinue(named: string)
    | ExplicitNew
    | NotHarness(current: Option<string>)
    | MatchesSpec(slug: string)
    | DiffersFromSpec(parsed: string, expected: string)

  datatype Decision = Continue(reason: Reason) | New(reason: Reason)

  /** `decide_branch_action`. */
  function DecideBranchAction(current: Option<string>, specName: string, forceNew: bool,
                              continueBranch: Option<string>, lower: string -> string): Decision
  {
    if continueBranch.Some? && Trim(continueBranch.value) != "" then
      Continue(ExplicitContinue(Trim(continueBranch.value)))
    else if forceNew then New(ExplicitNew)
    else match ParseHarnessBranch(current)
      case None => New(NotHarness(current))
      case Some(parsed) =>
        var expected := Slug(specName, lower);
        if parsed.specSlug == expected then Continue(MatchesSpec(expected))
        else New(DiffersFromSpec(parsed.specSlug, expected))
  }

  /** A branch named in ink is continued, whatever else is asked; one asked to be new is. */
  lemma FlagsDecide(current: Option<string>, specName: string, forceNew: bool, continueBranch: Option<string>,
                    lower: string -> string)
    ensures var decision := DecideBranchAction(current, specName, forceNew, continueBranch, lower);
            if continueBranch.Some? && !AllWhite(continueBranch.value) then
              decision == Continue(ExplicitContinue(Trim(continueBranch.value)))
            else if forceNew then decision == New(ExplicitNew)
            else decision == DecideBranchAction(current, specName, false, None, lower)
  {
    if continueBranch.Some? { BlankIsWhite(continueBranch.value); }
    hide Trim, ParseHarnessBranch, Slug;
  }

  /** The branch a run creates parses back to its slug and id, and continues that spec. */
  lemma BranchNameRoundTrip(specName: string, id: string, lower: string -> string)
    requires Lowercases(lower) && id != "" && Hex(id)
    ensures var branch := RunBranchName(specName, id, lower);
            && ParseHarnessBranch(Some(branch)) == Some(ParsedBranch(Slug(specName, lower), id))
            && DecideBranchAction(Some(branch), specName, false, None, lower).Continue?
  {
    SlugsAreSlugs(specName, lower);
    ParsesExactly(RunBranchName(specName, id, lower), Slug(specName, lower), id);
  }

  /** Without flags a run continues exactly on the branches this spec's runs create. */
  lemma ContinuesExactlyOwnBranches(current: Option<string>, specName: string,
                                    lower: string -> string)
    requires Lowercases(lower)
    ensures DecideBranchAction(current, specName, false, None, lower).Continue?
            <==> exists id :: id != "" && Hex(id)
                              && current == Some(RunBranchName(specName, id, lower))
  {
    var parsed := ParseHarnessBranch(current);
    if parsed.Some? {
      ParsesExactly(current.value, parsed.value.specSlug, parsed.value.shortId);
      if parsed.value.specSlug == Slug(specName, lower) {
        assert current == Some(RunBranchName(specName, parsed.value.shortId, lower));
      }
    }
    forall id | id != "" && Hex(id) && current == Some(RunBranchName(specName, id, lower))
      ensures DecideBranchAction(current, specName, false, None, lower).Continue?
    {
      BranchNameRoundTrip(specName, id, lower);
    }
  }

  /** Two specs share branches exactly when they share a slug: a name as long as the cap can lose
      what told it apart. */
  lemma BranchesTellSlugsApart(a: string, b: string, id: string, lower: string -> string)
    requires Lowercases(lower) && id != "" && Hex(id)
    ensures DecideBranchAction(Some(RunBranchName(a, id, lower)), b, false, None, lower).Continue?
            <==> Slug(a, lower) == Slug(b, lower)
  {
    BranchNameRoundTrip(a, id, lower);
  }
}
