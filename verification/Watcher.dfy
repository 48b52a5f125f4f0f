/** `src/harness/watcher.rs`: the pruned walk of the workspace and the log of what changed between
    walks. */
module Watcher {
  import opened Wrappers
  import opened Text

  // ---- a directory tree as one walk sees it -----------------------------------------------------

  datatype Stamp = Stamp(modified: Option<nat>, len: nat)

  /** `Gone` is an entry whose kind or metadata cannot be read; a directory that cannot be listed
      has no entries. A symbolic link is a file. */
  datatype Node = File(stamp: Stamp) | Gone | Directory(entries: Entries)

  datatype Entries = Empty | Entry(name: string, node: Node, rest: Entries)

  function Named(es: Entries, name: string): Option<Node> {
    match es
    case Empty => None
    case Entry(n, node, rest) => if n == name then Some(node) else Named(rest, name)
  }

  /** What a file system guarantees: names are not empty, hold no separator and do not repeat. */
  predicate WellNamed(es: Entries) {
    match es
    case Empty => true
    case Entry(name, node, rest) =>
      && name != "" && '/' !in name && Named(rest, name).None?
      && (node.Directory? ==> WellNamed(node.entries)) && WellNamed(rest)
  }

  function Slash(path: string): Option<nat> {
    if path == "" then None
    else if path[0] == '/' then Some(0)
    else match Slash(path[1..])
      case None => None
      case Some(n) => Some(n + 1)
  }

  lemma {:induction false} SlashIsFirst(path: string)
    ensures match Slash(path)
            case None => '/' !in path
            case Some(n) => n < |path| && path[n] == '/' && '/' !in path[..n]
  {
    if path != "" && path[0] != '/' {
      SlashIsFirst(path[1..]);
      assert path == [path[0]] + path[1..];
      match Slash(path[1..])
      case None =>
      case Some(n) => assert path[..n + 1] == [path[0]] + path[1..][..n];
    }
  }

  lemma {:induction false} SlashAfterName(name: string, rest: string)
    requires '/' !in name
    ensures Slash(name + "/" + rest) == Some(|name|)
    ensures Slash(name) == None
  {
    if name == "" {
      assert name + "/" + rest == "/" + rest;
    } else {
      assert name[0] in name;
      forall c | c in name[1..] ensures c in name {}
      SlashAfterName(name[1..], rest);
      assert (name + "/" + rest)[1..] == name[1..] + "/" + rest;
    }
  }

  /** The file a relative path names, found by following it segment by segment. */
  function FileAt(es: Entries, path: string): Option<Stamp>
    decreases |path|
  {
    match Slash(path)
    case None =>
      (match Named(es, path)
       case Some(File(stamp)) => Some(stamp)
       case _ => None)
    case Some(n) =>
      SlashIsFirst(path);
      match Named(es, path[..n])
      case Some(Directory(inner)) => FileAt(inner, path[n + 1..])
      case _ => None
  }

  // ---- what the walk skips ----------------------------------------------------------------------

  const IGNORED_SEGMENTS := ["node_modules", ".next", ".git", "dist", "artifacts", "cache",
                             ".harness-skills", ".harness-context", ".skill-cache"]

  function Normalized(path: string): (r: string)
    ensures |r| == |path|
  {
    seq(|path|, i requires 0 <= i < |path| => if path[i] == '\\' then '/' else path[i])
  }

  function Segments(path: string): seq<string>
    decreases |path|
  {
    SlashIsFirst(path);
    match Slash(path)
    case None => [path]
    case Some(n) => [path[..n]] + Segments(path[n + 1..])
  }

  predicate IgnoredNormalized(path: string) {
    || path == ".harness"
    || StartsWith(path, ".harness/")
    || (exists i: nat | i < |path| :: MatchesAt(path, "/.harness/", i))
    || (exists segment <- Segments(path) :: segment in IGNORED_SEGMENTS)
  }

  /** `should_ignore`. */
  predicate ShouldIgnore(relative: string) {
    IgnoredNormalized(Normalized(relative))
  }

  lemma {:induction false} SegmentsConcat(a: string, b: string)
    ensures Segments(a + "/" + b) == Segments(a) + Segments(b)
    decreases |a|
  {
    SlashIsFirst(a);
    match Slash(a)
    case None =>
      SlashAfterName(a, b);
      assert (a + "/" + b)[..|a|] == a && (a + "/" + b)[|a| + 1..] == b;
    case Some(n) =>
      var x, y := a[..n], a[n + 1..];
      assert a == x + "/" + y;
      SlashAfterName(x, y + "/" + b);
      assert a + "/" + b == x + "/" + (y + "/" + b);
      assert (a + "/" + b)[..n] == x && (a + "/" + b)[n + 1..] == y + "/" + b;
      SegmentsConcat(y, b);
  }

  /** `.harness` first, or with something below it, or one of these names anywhere. */
  ghost predicate Ignorable(parts: seq<string>) {
    || (parts != [] && parts[0] == ".harness")
    || (exists i :: 0 < i < |parts| - 1 && parts[i] == ".harness")
    || (exists i :: 0 <= i < |parts| && parts[i] in {"node_modules", ".next", ".git", "dist", "artifacts", "cache",
                                                     ".harness-skills", ".harness-context", ".skill-cache"})
  }

  ghost predicate HasInner(path: string) {
    exists i: nat :: i < |path| && MatchesAt(path, "/.harness/", i)
  }

  ghost predicate InnerPart(parts: seq<string>) {
    exists i :: 0 < i < |parts| - 1 && parts[i] == ".harness"
  }

  lemma {:induction false} InnerIsAPart(path: string)
    ensures HasInner(path) <==> InnerPart(Segments(path))
    decreases |path|
  {
    SlashIsFirst(path);
    match Slash(path)
    case None =>
      forall i: nat | i < |path| ensures !MatchesAt(path, "/.harness/", i) {
        assert path[i] in path;
        MismatchAt(path, "/.harness/", i, i);
      }
    case Some(n) =>
      var rest := path[n + 1..];
      var parts := Segments(rest);
      InnerIsAPart(rest);
      FirstPart(rest);
      InnerAfter(path, n);
      InnerPartAfter(path[..n], parts);
  }

  lemma FirstPart(path: string)
    ensures Segments(path) != []
    ensures StartsWith(path, ".harness/") <==> |Segments(path)| > 1 && Segments(path)[0] == ".harness"
  {
    SlashIsFirst(path);
    match Slash(path)
    case None =>
      assert |path| >= 9 ==> path[8] in path && path[..9][8] == path[8];
    case Some(n) =>
      assert Segments(path)[1..] == Segments(path[n + 1..]);
      SlashIsFirst(path[n + 1..]);
      if StartsWith(path, ".harness/") {
        assert forall i :: 0 <= i < 9 ==> path[i] == ".harness/"[i];
        assert n == 8 && path[..9][..8] == ".harness";
      }
      if path[..n] == ".harness" { assert path[..9] == ".harness" + [path[8]]; }
  }

  lemma InnerAfter(path: string, n: nat)
    requires n < |path| && path[n] == '/' && '/' !in path[..n]
    ensures HasInner(path) <==> StartsWith(path[n + 1..], ".harness/") || HasInner(path[n + 1..])
  {
    var rest := path[n + 1..];
    forall i | 0 <= i < n ensures !MatchesAt(path, "/.harness/", i) {
      assert path[i] == path[..n][i];
      MismatchAt(path, "/.harness/", i, i);
    }
    assert |rest| >= 9 ==> path[n..n + 10] == ['/'] + rest[..9] && path[n..n + 10][1..] == rest[..9];
    assert MatchesAt(path, "/.harness/", n) <==> StartsWith(rest, ".harness/");
    if HasInner(path) {
      var i: nat :| i < |path| && MatchesAt(path, "/.harness/", i);
      if i > n {
        assert rest[i - n - 1..i - n + 9] == path[i..i + 10];
        assert MatchesAt(rest, "/.harness/", i - n - 1);
      }
    }
    if HasInner(rest) {
      var i: nat :| i < |rest| && MatchesAt(rest, "/.harness/", i);
      assert path[n + 1 + i..n + 11 + i] == rest[i..i + 10];
      assert MatchesAt(path, "/.harness/", n + 1 + i);
    }
  }

  lemma InnerPartAfter(first: string, rest: seq<string>)
    requires rest != []
    ensures InnerPart([first] + rest) <==> (|rest| > 1 && rest[0] == ".harness") || InnerPart(rest)
  {
    var parts := [first] + rest;
    if InnerPart(parts) {
      var i :| 0 < i < |parts| - 1 && parts[i] == ".harness";
      assert rest[i - 1] == ".harness";
    }
    if |rest| > 1 && rest[0] == ".harness" { assert parts[1] == ".harness"; }
    if InnerPart(rest) {
      var i :| 0 < i < |rest| - 1 && rest[i] == ".harness";
      assert parts[i + 1] == ".harness";
    }
  }

  /** A path is skipped exactly for what its parts are, whichever slash separates them. */
  lemma IgnoredExactly(path: string) returns (slashed: string)
    ensures |slashed| == |path|
    ensures forall i :: 0 <= i < |path| ==> slashed[i] == if path[i] == '\\' then '/' else path[i]
    ensures ShouldIgnore(path) <==> Ignorable(Segments(slashed))
  {
    slashed := Normalized(path);
    var parts := Segments(slashed);
    InnerIsAPart(slashed);
    FirstPart(slashed);
    OnePart(slashed);
    hide Segments, MatchesAt, StartsWith;
    assert (exists segment <- parts :: segment in IGNORED_SEGMENTS)
           <==> exists i :: 0 <= i < |parts| && parts[i] in IGNORED_SEGMENTS;
    assert parts[0] == ".harness" <==> slashed == ".harness" || StartsWith(slashed, ".harness/");
  }

  lemma OnePart(path: string)
    ensures |Segments(path)| == 1 ==> Segments(path) == [path]
    ensures path == ".harness" ==> Segments(path) == [path]
  {
    SlashIsFirst(path);
    if Slash(path).Some? { FirstPart(path[Slash(path).value + 1..]); }
  }

  /** Nothing below an ignored directory would have been kept: pruning loses nothing. */
  lemma IgnoredStaysIgnored(path: string, below: string)
    requires ShouldIgnore(path)
    ensures ShouldIgnore(path + "/" + below)
  {
    var p, q := Normalized(path), Normalized(below);
    var whole := Normalized(path + "/" + below);
    assert whole == p + "/" + q;
    if p == ".harness" {
      assert whole[..9] == ".harness/";
    } else if StartsWith(p, ".harness/") {
      assert whole[..9] == p[..9];
    } else if exists i: nat | i < |p| :: MatchesAt(p, "/.harness/", i) {
      var i: nat :| i < |p| && MatchesAt(p, "/.harness/", i);
      MatchInFirst(p, "/" + q, "/.harness/", i);
      assert p + ("/" + q) == whole;
    } else {
      SegmentsConcat(p, q);
      var segment :| segment in Segments(p) && segment in IGNORED_SEGMENTS;
      assert segment in Segments(whole);
    }
  }

  // ---- the whole tree, unpruned -----------------------------------------------------------------

  function Under(prefix: string, name: string): string {
    if prefix == "" then name else prefix + "/" + name
  }

  type Found = (string, Stamp)

  ghost function Files(es: Entries, prefix: string): set<Found> {
    match es
    case Empty => {}
    case Entry(name, node, rest) => NodeFiles(node, Under(prefix, name)) + Files(rest, prefix)
  }

  ghost function NodeFiles(node: Node, path: string): set<Found> {
    match node
    case File(stamp) => {(path, stamp)}
    case Gone => {}
    case Directory(entries) => Files(entries, path)
  }

  /** Listing the tree and resolving a path agree. */
  lemma {:induction false} FilesResolve(es: Entries, prefix: string, file: Found)
    requires WellNamed(es) && file in Files(es, prefix)
    ensures exists path :: path != "" && file.0 == Under(prefix, path) && FileAt(es, path) == Some(file.1)
  {
    match es
    case Empty =>
    case Entry(name, node, rest) =>
      if file in Files(rest, prefix) {
        FilesResolve(rest, prefix, file);
        var path :| path != "" && file.0 == Under(prefix, path) && FileAt(rest, path) == Some(file.1);
        AddEntry(name, node, rest, path);
      } else if node.File? {
        SlashAfterName(name, "");
        assert FileAt(es, name) == Some(file.1);
      } else {
        FilesResolve(node.entries, Under(prefix, name), file);
        var path :| path != "" && file.0 == Under(Under(prefix, name), path)
                    && FileAt(node.entries, path) == Some(file.1);
        IntoDirectory(es, path);
        assert file.0 == Under(prefix, name + "/" + path);
      }
  }

  lemma IntoDirectory(es: Entries, path: string)
    requires es.Entry? && es.node.Directory? && '/' !in es.name
    ensures FileAt(es, es.name + "/" + path) == FileAt(es.node.entries, path)
  {
    var whole := es.name + "/" + path;
    SlashAfterName(es.name, path);
    assert whole[..|es.name|] == es.name && whole[|es.name| + 1..] == path;
  }

  /** An entry of another name does not change what a path resolves to. */
  lemma AddEntry(name: string, node: Node, rest: Entries, path: string)
    requires Named(rest, name).None? && FileAt(rest, path).Some?
    ensures FileAt(Entry(name, node, rest), path) == FileAt(rest, path)
  {
  }

  lemma {:induction false} ResolvedIsListed(es: Entries, prefix: string, path: string)
    requires WellNamed(es) && FileAt(es, path).Some?
    ensures (Under(prefix, path), FileAt(es, path).value) in Files(es, prefix)
    decreases es
  {
    SlashIsFirst(path);
    match es
    case Empty =>
    case Entry(name, node, rest) =>
      var stamp := FileAt(es, path).value;
      match Slash(path)
      case None =>
        if path != name { ResolvedIsListed(rest, prefix, path); }
      case Some(n) =>
        if path[..n] == name {
          assert path == name + "/" + path[n + 1..];
          ResolvedIsListed(node.entries, Under(prefix, name), path[n + 1..]);
          assert Under(Under(prefix, name), path[n + 1..]) == Under(prefix, path) by {
            ResolvedNotEmpty(node.entries, path[n + 1..]);
          }
        } else {
          ResolvedIsListed(rest, prefix, path);
        }
  }

  lemma {:induction false} ResolvedNotEmpty(es: Entries, path: string)
    requires WellNamed(es) && FileAt(es, path).Some?
    ensures path != ""
  {
    if path == "" { NoEmptyName(es); }
  }

  lemma {:induction false} NoEmptyName(es: Entries)
    requires WellNamed(es)
    ensures Named(es, "").None?
  {
    if es.Entry? { NoEmptyName(es.rest); }
  }

  /** A path names at most one file of the tree. */
  lemma FilesAreDistinct(es: Entries, p: string, s: Stamp)
    requires WellNamed(es)
    ensures (p, s) in Files(es, "") <==> FileAt(es, p) == Some(s)
  {
    if (p, s) in Files(es, "") { FilesResolve(es, "", (p, s)); }
    if FileAt(es, p) == Some(s) { ResolvedIsListed(es, "", p); }
  }

  type Walk = map<string, Stamp>

  function StampOf(walk: Walk, path: string): Option<Stamp> {
    if path in walk then Some(walk[path]) else None
  }

  // ---- the walk ---------------------------------------------------------------------------------

  function Weight(es: Entries): nat {
    match es
    case Empty => 1
    case Entry(_, node, rest) => 1 + (if node.Directory? then Weight(node.entries) else 0) + Weight(rest)
  }

  type Item = (Entries, string)

  ghost function QueueWeight(queue: seq<Item>): nat {
    if queue == [] then 0
    else QueueWeight(queue[..|queue| - 1]) + Weight(queue[|queue| - 1].0)
  }

  ghost function QueueFiles(queue: seq<Item>): set<Found> {
    if queue == [] then {}
    else
      var (es, prefix) := queue[|queue| - 1];
      QueueFiles(queue[..|queue| - 1]) + Files(es, prefix)
  }

  ghost predicate QueueIsWellNamed(queue: seq<Item>) {
    forall i :: 0 <= i < |queue| ==> WellNamed(queue[i].0)
  }

  ghost function Kept(files: set<Found>): set<Found> {
    set f | f in files && !ShouldIgnore(f.0)
  }

  ghost function Items(found: Walk): set<Found> {
    set p | p in found :: (p, found[p])
  }

  lemma QueuePush(queue: seq<Item>, item: Item)
    ensures QueueWeight(queue + [item]) == QueueWeight(queue) + Weight(item.0)
    ensures QueueFiles(queue + [item]) == QueueFiles(queue) + Files(item.0, item.1)
  {
  }

  lemma PrunedIsIgnored(node: Node, path: string)
    requires ShouldIgnore(path) && path != "" && (node.Directory? ==> WellNamed(node.entries))
    ensures Kept(NodeFiles(node, path)) == {}
  {
    if node.Directory? {
      forall f | f in Files(node.entries, path) ensures ShouldIgnore(f.0) {
        FilesResolve(node.entries, path, f);
        var below :| below != "" && f.0 == Under(path, below) && FileAt(node.entries, below) == Some(f.1);
        IgnoredStaysIgnored(path, below);
      }
    }
  }

  lemma KeptUnion(a: set<Found>, b: set<Found>)
    ensures Kept(a + b) == Kept(a) + Kept(b)
  {
  }

  /** Adding a file that belongs to the tree overwrites nothing. */
  lemma AddItem(root: Entries, found: Walk, path: string, stamp: Stamp)
    requires WellNamed(root) && Items(found) <= Files(root, "") && (path, stamp) in Files(root, "")
    ensures Items(found[path := stamp]) == Items(found) + {(path, stamp)}
  {
    var next := found[path := stamp];
    FilesAreDistinct(root, path, stamp);
    forall f | f in Items(found) ensures f in Items(next) {
      FilesAreDistinct(root, f.0, f.1);
      assert next[f.0] == f.1;
      assert f.0 in next;
    }
    assert path in next;
  }

  /** What is still to be found: in the queue, or in the rest of the directory being listed. */
  ghost predicate WalkInvariant(root: Entries, found: Walk, queue: seq<Item>,
                                es: Entries, prefix: string)
  {
    && QueueIsWellNamed(queue) && WellNamed(es)
    && Kept(Files(root, "")) == Items(found) + Kept(QueueFiles(queue)) + Kept(Files(es, prefix))
  }

  lemma WalkPops(root: Entries, found: Walk, queue: seq<Item>, prefix: string)
    requires WalkInvariant(root, found, queue, Empty, prefix) && queue != []
    ensures var (es, p) := queue[|queue| - 1];
            && WalkInvariant(root, found, queue[..|queue| - 1], es, p)
            && QueueWeight(queue) == QueueWeight(queue[..|queue| - 1]) + Weight(es)
  {
    hide ShouldIgnore, Weight;
    var (es, p) := queue[|queue| - 1];
    KeptUnion(QueueFiles(queue[..|queue| - 1]), Files(es, p));
  }

  lemma WalkLists(root: Entries, found: Walk, queue: seq<Item>, es: Entries,
                  prefix: string)
    requires WellNamed(root) && WalkInvariant(root, found, queue, es, prefix) && es.Entry?
    ensures var relative := Under(prefix, es.name);
            if ShouldIgnore(relative) || es.node.Gone? then
              WalkInvariant(root, found, queue, es.rest, prefix)
            else if es.node.File? then
              WalkInvariant(root, found[relative := es.node.stamp], queue, es.rest, prefix)
            else
              WalkInvariant(root, found, queue + [(es.node.entries, relative)], es.rest, prefix)
  {
    hide ShouldIgnore;
    var relative := Under(prefix, es.name);
    KeptUnion(NodeFiles(es.node, relative), Files(es.rest, prefix));
    assert Files(es, prefix) == NodeFiles(es.node, relative) + Files(es.rest, prefix);
    if ShouldIgnore(relative) {
      PrunedIsIgnored(es.node, relative);
    } else if es.node.Gone? {
      assert Kept(NodeFiles(es.node, relative)) == {};
    } else if es.node.File? {
      var file := (relative, es.node.stamp);
      assert NodeFiles(es.node, relative) == {file};
      assert Kept({file}) == {file};
      assert file in Kept(Files(root, ""));
      AddItem(root, found, relative, es.node.stamp);
    } else {
      QueuePush(queue, (es.node.entries, relative));
      KeptUnion(QueueFiles(queue), Files(es.node.entries, relative));
    }
  }

  /** `scan`: exactly the files of the tree that `should_ignore` keeps. */
  method Scan(root: Entries) returns (found: Walk)
    requires WellNamed(root)
    ensures forall p :: StampOf(found, p) == if ShouldIgnore(p) then None else FileAt(root, p)
  {
    found := map[];
    var queue: seq<Item> := [(root, "")];
    assert QueueFiles(queue) == Files(root, "") by { QueuePush([], (root, "")); assert [] + queue == queue; }
    var es, prefix := Empty, "";
    while queue != []
      invariant es == Empty && WalkInvariant(root, found, queue, es, prefix)
      decreases QueueWeight(queue)
    {
      WalkPops(root, found, queue, prefix);
      ghost var weight := QueueWeight(queue);
      es, prefix := queue[|queue| - 1].0, queue[|queue| - 1].1;
      queue := queue[..|queue| - 1];
      while es.Entry?
        invariant WalkInvariant(root, found, queue, es, prefix)
        invariant QueueWeight(queue) + Weight(es) <= weight
        decreases es
      {
        WalkLists(root, found, queue, es, prefix);
        var relative := Under(prefix, es.name);
        if !ShouldIgnore(relative) {
          match es.node {
            case Directory(entries) =>
              QueuePush(queue, (entries, relative));
              queue := queue + [(entries, relative)];
            case File(stamp) =>
              found := found[relative := stamp];
            case Gone =>
          }
        }
        es := es.rest;
      }
    }
    WalkEnds(root, found, prefix);
  }

  lemma WalkEnds(root: Entries, found: Walk, prefix: string)
    requires WellNamed(root) && WalkInvariant(root, found, [], Empty, prefix)
    ensures forall p :: StampOf(found, p) == if ShouldIgnore(p) then None else FileAt(root, p)
  {
    assert Kept(Files(root, "")) == Items(found);
    hide Kept, Files, FileAt, Items, ShouldIgnore;
    forall p ensures StampOf(found, p) == if ShouldIgnore(p) then None else FileAt(root, p) {
      if p in found {
        FileIsFound(root, found, p, found[p]);
      }
      if FileAt(root, p).Some? {
        FileIsFound(root, found, p, FileAt(root, p).value);
      }
    }
  }

  lemma FileIsFound(root: Entries, found: Walk, p: string, s: Stamp)
    requires WellNamed(root) && Kept(Files(root, "")) == Items(found)
    ensures p in found && found[p] == s <==> FileAt(root, p) == Some(s) && !ShouldIgnore(p)
  {
    FilesAreDistinct(root, p, s);
    ItemOf(found, p, s);
    KeptOf(Files(root, ""), p, s);
  }

  lemma ItemOf(found: Walk, p: string, s: Stamp)
    ensures (p, s) in Items(found) <==> p in found && found[p] == s
  {
  }

  lemma KeptOf(files: set<Found>, p: string, s: Stamp)
    ensures (p, s) in Kept(files) <==> (p, s) in files && !ShouldIgnore(p)
  {
    hide ShouldIgnore;
  }

  // ---- what changed between two walks -----------------------------------------------------------

  ghost function Changed(previous: Walk, current: Walk): set<string> {
    set p | p in previous.Keys + current.Keys && StampOf(previous, p) != StampOf(current, p)
  }

  /** Paths of `of`, in any order, whose stamp in `other` differs, or is missing when `gone`. */
  method Differing(of: Walk, other: Walk, gone: bool) returns (paths: seq<string>)
    ensures forall p :: p in paths
              <==> p in of && (if gone then p !in other else StampOf(other, p) != StampOf(of, p))
  {
    paths := [];
    var keys := of.Keys;
    while keys != {}
      invariant keys <= of.Keys
      invariant forall p :: p in paths
                  <==> p in of.Keys - keys
                       && (if gone then p !in other else StampOf(other, p) != StampOf(of, p))
      decreases |keys|
    {
      var relative :| relative in keys;
      if if gone then relative !in other else StampOf(other, relative) != StampOf(of, relative) {
        paths := paths + [relative];
      }
      keys := keys - {relative};
    }
  }

  /** `changes`: the paths that appeared, vanished or got another stamp, in path order. */
  method Changes(previous: Walk, current: Walk) returns (changed: seq<string>)
    ensures ListsInOrder(changed, Changed(previous, current))
  {
    changed := Differing(current, previous, false);
    var vanished := Differing(previous, current, true);
    changed := changed + vanished;
    SortSorts(changed);
    changed := Sort(changed);
    DedupIsStrict(changed);
    changed := Dedup(changed);
  }

  // ---- the activity log over any sequence of polls ----------------------------------------------

  /** The lines that one poll after another writes. */
  ghost predicate LogOf(walks: seq<Walk>, log: seq<string>)
    requires walks != []
  {
    if |walks| == 1 then log == []
    else
      var n := |walks| - 1;
      exists k: nat | k <= |log| ::
        LogOf(walks[..n], log[..k]) && ListsInOrder(log[k..], Changed(walks[n - 1], walks[n]))
  }

  /** Whatever differs between start and stop was logged on the way, and whatever was logged had
      changed between two polls in a row. */
  lemma {:induction false} LogMissesNothing(walks: seq<Walk>, log: seq<string>, path: string)
    requires walks != [] && LogOf(walks, log)
    ensures StampOf(walks[0], path) != StampOf(walks[|walks| - 1], path) ==> path in log
    ensures path in log
            <==> exists i :: 0 < i < |walks| && StampOf(walks[i - 1], path) != StampOf(walks[i], path)
    decreases |walks|
  {
    if |walks| > 1 {
      var n := |walks| - 1;
      var k: nat :| k <= |log| && LogOf(walks[..n], log[..k])
                    && ListsInOrder(log[k..], Changed(walks[n - 1], walks[n]));
      LogMissesNothing(walks[..n], log[..k], path);
      assert log == log[..k] + log[k..];
      assert path in log[k..] <==> StampOf(walks[n - 1], path) != StampOf(walks[n], path);
      if path in log[..k] {
        var i :| 0 < i < n && StampOf(walks[..n][i - 1], path) != StampOf(walks[..n][i], path);
        assert StampOf(walks[i - 1], path) != StampOf(walks[i], path);
      }
      forall i | 0 < i < |walks| && StampOf(walks[i - 1], path) != StampOf(walks[i], path)
        ensures path in log
      {
        if i < n { assert walks[..n][i - 1] == walks[i - 1] && walks[..n][i] == walks[i]; }
      }
    }
  }

  /** `State`: the last walk, the running count and the log. */
  class State {
    var previous: Walk
    var changes: nat
    var log: seq<string>
    ghost var walks: seq<Walk>

    ghost predicate Valid()
      reads this
    {
      && walks != [] && walks[|walks| - 1] == previous
      && LogOf(walks, log) && changes == |log|
    }

    constructor (baseline: Walk)
      ensures Valid() && walks == [baseline]
    {
      previous, changes, log, walks := baseline, 0, [], [baseline];
    }

    method Record(current: Walk)
      requires Valid()
      modifies this
      ensures Valid() && walks == old(walks) + [current]
      ensures old(log) <= log
    {
      var changed := Changes(previous, current);
      ghost var logged := log;
      for i := 0 to |changed|
        invariant log == logged + changed[..i] && changes == |log|
        invariant walks == old(walks) && previous == old(previous)
      {
        changes := changes + 1;
        log := log + [changed[i]];
      }
      previous := current;
      walks := walks + [current];
      assert walks[..|walks| - 1] == old(walks);
      assert log[..|logged|] == logged && log[|logged|..] == changed;
    }
  }
}
