/** Which ignored directories must still be walked: the negation hints of langgraph_cli/_ignore.py. */
module IgnoreHints {
  import opened Prelude
  import opened UvPaths
  import opened UvCopyItems

  /** The `exact_dirs`, `wildcard_prefixes` and `recurse_all` of a `.dockerignore` file. */
  datatype Hints = Hints(exactDirs: set<Path>, wildcardPrefixes: set<Path>, recurseAll: bool)
  {
    /** `requires_dir_walk` */
    predicate RequiresDirWalk(path: Path) {
      || recurseAll
      || path in exactDirs
      || exists prefix | prefix in wildcardPrefixes :: path == prefix || path < prefix || prefix < path
    }
  }

  // ---------------------------------------------------------------------
  // One line
  // ---------------------------------------------------------------------

  predicate IsSpace(c: char) {
    c == ' ' || '\t' <= c <= '\r' || '\U{1C}' <= c <= '\U{1F}'
  }

  predicate IsGlob(c: char) {
    c == '*' || c == '?' || c == '['
  }

  function DropLeft(s: string, drop: char -> bool): string {
    if s != [] && drop(s[0]) then DropLeft(s[1..], drop) else s
  }

  function DropRight(s: string, drop: char -> bool): string {
    if s != [] && drop(s[|s| - 1]) then DropRight(s[..|s| - 1], drop) else s
  }

  function IsSlash(): char -> bool {
    c => c == '/'
  }

  function DropDotSlash(s: string): string {
    if |s| >= 2 && s[..2] == "./" then DropDotSlash(s[2..]) else s
  }

  /** `s.split("/")` */
  function Split(s: string): (parts: seq<string>)
    ensures parts != []
  {
    if s == [] then [""]
    else
      var rest := Split(s[1..]);
      if s[0] == '/' then [""] + rest else [[s[0]] + rest[0]] + rest[1..]
  }

  /** The parts that name something: neither empty nor `.` */
  function Named(parts: seq<string>): Path {
    if parts == [] then []
    else (if parts[0] != "" && parts[0] != "." then [parts[0]] else []) + Named(parts[1..])
  }

  /** The path parts of a negation line, and `None` for every other line. */
  function Negated(rawLine: string): Option<Path> {
    var line := DropRight(DropLeft(rawLine, IsSpace), IsSpace);
    if line == [] || line[0] != '!' then None
    else Some(Named(Split(DropRight(DropDotSlash(DropLeft(line[1..], IsSlash())), IsSlash()))))
  }

  function HasGlob(part: string): bool {
    exists i | 0 <= i < |part| :: IsGlob(part[i])
  }

  /** The number of parts before the first that holds a wildcard. */
  function LiteralParts(parts: Path): (n: nat)
    ensures n <= |parts|
    ensures forall i | 0 <= i < n :: !HasGlob(parts[i])
    ensures n < |parts| ==> HasGlob(parts[n])
  {
    if parts == [] || HasGlob(parts[0]) then 0 else 1 + LiteralParts(parts[1..])
  }

  // ---------------------------------------------------------------------
  // The whole file
  // ---------------------------------------------------------------------

  ghost predicate NegatesBroadly(line: string) {
    Negated(line).Some? && LiteralParts(Negated(line).value) == 0
  }

  ghost predicate NegatesUnder(line: string, prefix: Path) {
    && Negated(line).Some?
    && var parts := Negated(line).value;
    0 < LiteralParts(parts) < |parts| && prefix == parts[..LiteralParts(parts)]
  }

  ghost predicate NegatesBelow(line: string, dir: Path) {
    && Negated(line).Some?
    && var parts := Negated(line).value;
    LiteralParts(parts) == |parts| && dir != [] && dir < parts
  }

  /** The hints hold what some line calls for, and nothing else. */
  ghost predicate HintsFor(lines: seq<string>, h: Hints) {
    && (h.recurseAll <==> exists i | 0 <= i < |lines| :: NegatesBroadly(lines[i]))
    && (forall p :: p in h.wildcardPrefixes <==> exists i | 0 <= i < |lines| :: NegatesUnder(lines[i], p))
    && (forall d :: d in h.exactDirs <==> exists i | 0 <= i < |lines| :: NegatesBelow(lines[i], d))
  }

  method ProperParents(parts: Path) returns (dirs: set<Path>)
    requires parts != []
    ensures forall d :: d in dirs <==> d != [] && d < parts
  {
    dirs := {};
    for k := 1 to |parts|
      invariant forall d :: d in dirs <==> d != [] && d < parts && |d| < k
    {
      forall d | d < parts && |d| == k ensures d == parts[..k] {
      }
      dirs := dirs + {parts[..k]};
    }
  }

  lemma HintsForMore(lines: seq<string>, k: nat, h: Hints, g: Hints)
    requires k < |lines| && HintsFor(lines[..k], h)
    requires g.recurseAll == (h.recurseAll || NegatesBroadly(lines[k]))
    requires forall p :: p in g.wildcardPrefixes <==> p in h.wildcardPrefixes || NegatesUnder(lines[k], p)
    requires forall d :: d in g.exactDirs <==> d in h.exactDirs || NegatesBelow(lines[k], d)
    ensures HintsFor(lines[..k + 1], g)
  {
    var a, b := lines[..k], lines[..k + 1];
    assert b == a + [lines[k]];
    assert forall i | 0 <= i < k :: b[i] == a[i];
    assert b[k] == lines[k];
  }

  /** `_build_dockerignore_negation_hints`; a missing file counts as one without lines. */
  method BuildHints(lines: seq<string>) returns (h: Hints)
    ensures HintsFor(lines, h)
  {
    h := Hints({}, {}, false);
    for k := 0 to |lines|
      invariant HintsFor(lines[..k], h)
    {
      var negated := Negated(lines[k]);
      ghost var before := h;
      if negated.Some? {
        var parts := negated.value;
        var literal := LiteralParts(parts);
        if literal == 0 {
          h := h.(recurseAll := true);
        } else if literal < |parts| {
          h := h.(wildcardPrefixes := h.wildcardPrefixes + {parts[..literal]});
        } else {
          var dirs := ProperParents(parts);
          h := h.(exactDirs := h.exactDirs + dirs);
        }
      }
      HintsForMore(lines, k, before, h);
    }
    assert lines[..|lines|] == lines;
  }

  // ---------------------------------------------------------------------
  // Reaching what a negation re-includes
  // ---------------------------------------------------------------------

  /** A negation that names a path without wildcards lets every proper parent of that path be walked. */
  lemma LiteralNegationWalks(lines: seq<string>, h: Hints, i: nat, dir: Path)
    requires HintsFor(lines, h) && i < |lines| && NegatesBelow(lines[i], dir)
    ensures h.RequiresDirWalk(dir)
  {
  }

  /** A wildcard negation lets everything above and below its literal prefix be walked. */
  lemma WildcardNegationWalks(lines: seq<string>, h: Hints, i: nat, prefix: Path, dir: Path)
    requires HintsFor(lines, h) && i < |lines| && NegatesUnder(lines[i], prefix)
    requires dir <= prefix || prefix <= dir
    ensures h.RequiresDirWalk(dir)
  {
    assert prefix in h.wildcardPrefixes;
    assert |dir| == |prefix| ==> dir == prefix;
  }

  /** Some negation has no literal start, names something below the directory, or has its literal prefix above or below it. */
  ghost predicate CallsForWalk(lines: seq<string>, dir: Path) {
    exists i | 0 <= i < |lines| ::
      || NegatesBroadly(lines[i])
      || NegatesBelow(lines[i], dir)
      || exists prefix :: NegatesUnder(lines[i], prefix) && (dir <= prefix || prefix <= dir)
  }

  /**
   * A directory is walked only for a reason: a negation with no literal start, one that names something
   * below it, or one whose literal prefix lies above or below it.
   */
  lemma WalkedForAReason(lines: seq<string>, h: Hints, dir: Path)
    requires HintsFor(lines, h) && dir != []
    ensures h.RequiresDirWalk(dir) <==> CallsForWalk(lines, dir)
  {
    if i, prefix :| 0 <= i < |lines| && NegatesUnder(lines[i], prefix) && (dir <= prefix || prefix <= dir) {
      WildcardNegationWalks(lines, h, i, prefix, dir);
    }
  }

  /** A line re-includes a file: it names the file's very path, or its literal prefix holds the file. */
  ghost predicate Reincludes(line: string, f: Path) {
    || Negated(line) == Some(f)
    || (exists prefix :: NegatesUnder(line, prefix) && prefix <= f)
    || NegatesBroadly(line)
  }

  /** The walk gets to every wanted file a negation re-includes, however many of its parents are ignored. */
  lemma ReincludedFileCovered(root: seq<Child>, rules: Rules, lines: seq<string>, h: Hints, f: Path, i: nat) returns (p: Path)
    requires DistinctNames(root) && Wanted(root, rules, f)
    requires HintsFor(lines, h) && rules.walk == (path => h.RequiresDirWalk(path))
    requires i < |lines| && Reincludes(lines[i], f)
    ensures Emitted(root, p, rules) && p <= f
    ensures forall q | Emitted(root, q, rules) && q <= f :: q == p
  {
    forall n | 0 < n < |f| ensures h.RequiresDirWalk(f[..n]) {
      if NegatesBroadly(lines[i]) {
        assert h.recurseAll;
      } else if Negated(lines[i]) == Some(f) && LiteralParts(f) == |f| {
        LiteralNegationWalks(lines, h, i, f[..n]);
      } else {
        assert Negated(lines[i]) == Some(f) ==> NegatesUnder(lines[i], f[..LiteralParts(f)]);
        var prefix :| NegatesUnder(lines[i], prefix) && prefix <= f;
        assert if n <= |prefix| then f[..n] <= prefix else prefix <= f[..n];
        WildcardNegationWalks(lines, h, i, prefix, f[..n]);
      }
    }
    p := WantedFileCoveredOnce(root, rules, f);
  }

  /**
   * A wanted file is copied exactly when some negation calls for walking each ignored parent that the walk
   * gets to and that holds no member, whatever else the negation matches.
   */
  lemma FileCoveredIffCalledFor(root: seq<Child>, rules: Rules, lines: seq<string>, h: Hints, f: Path)
    requires DistinctNames(root) && Wanted(root, rules, f)
    requires HintsFor(lines, h) && rules.walk == (path => h.RequiresDirWalk(path))
    ensures (exists p :: Emitted(root, p, rules) && p <= f) <==>
            forall i | 0 < i < |f| && GetsTo(rules, f, i) && rules.ignored(f[..i], true) && !rules.MemberParent(f[..i]) ::
              CallsForWalk(lines, f[..i])
  {
    WantedFileCoveredIff(root, rules, f);
    forall i | 0 < i < |f| ensures rules.walk(f[..i]) <==> CallsForWalk(lines, f[..i]) {
      WalkedForAReason(lines, h, f[..i]);
    }
  }

  // ---------------------------------------------------------------------
  // Printing a negation
  // ---------------------------------------------------------------------

  function Join(parts: Path): string {
    if parts == [] then [] else if |parts| == 1 then parts[0] else parts[0] + "/" + Join(parts[1..])
  }

  ghost predicate CleanPart(part: string) {
    part != "" && part != "." && '/' !in part && forall i | 0 <= i < |part| :: !IsSpace(part[i])
  }

  ghost predicate CleanParts(parts: Path) {
    forall i | 0 <= i < |parts| :: CleanPart(parts[i])
  }

  lemma {:induction false} SplitPart(part: string, rest: string)
    requires '/' !in part
    ensures Split(part + "/" + rest) == [part] + Split(rest)
    ensures Split(part) == [part]
  {
    if part == [] {
      assert part + "/" + rest == "/" + rest;
    } else {
      assert (part + "/" + rest)[1..] == part[1..] + "/" + rest;
      assert part[0] in part && forall c | c in part[1..] :: c in part;
      SplitPart(part[1..], rest);
      assert [part[0]] + part[1..] == part;
    }
  }

  lemma {:induction false} SplitJoin(parts: Path)
    requires parts != [] && CleanParts(parts)
    ensures Split(Join(parts)) == parts && Named(parts) == parts
  {
    assert CleanPart(parts[0]);
    if |parts| == 1 {
      SplitPart(parts[0], "");
      assert parts[1..] == [];
    } else {
      SplitPart(parts[0], Join(parts[1..]));
      SplitJoin(parts[1..]);
    }
  }

  lemma {:induction false} JoinEnds(parts: Path)
    requires parts != [] && CleanParts(parts)
    ensures var s := Join(parts);
            && s != [] && s[0] != '/' && !IsSpace(s[0]) && s[|s| - 1] != '/' && !IsSpace(s[|s| - 1])
            && !(|s| >= 2 && s[..2] == "./")
  {
    assert CleanPart(parts[0]);
    assert |parts[0]| > 1 ==> parts[0][1] in parts[0];
    assert parts[0][|parts[0]| - 1] in parts[0] && parts[0][0] in parts[0];
    if |parts| == 1 {
      assert |parts[0]| > 1 ==> parts[0][..2][1] == parts[0][1];
    } else {
      JoinEnds(parts[1..]);
      var s := Join(parts);
      if |parts[0]| == 1 {
        assert s[..2] == parts[0] + "/";
        assert parts[0][0] != '.' by {
          assert parts[0] == [parts[0][0]];
        }
        assert s[0] == parts[0][0];
      } else {
        assert s[1] == parts[0][1] && s[..2][1] == s[1];
      }
    }
  }

  /** A path written as a negation, anchored or not, is read back as that path. */
  lemma {:induction false} NegationRoundTrip(parts: Path, anchored: bool)
    requires parts != [] && CleanParts(parts)
    ensures Negated("!" + (if anchored then "/" else "") + Join(parts)) == Some(parts)
  {
    var s := Join(parts);
    var line := "!" + (if anchored then "/" else "") + s;
    JoinEnds(parts);
    SplitJoin(parts);
    assert line[|line| - 1] == s[|s| - 1];
    assert DropLeft(line, IsSpace) == line && DropRight(line, IsSpace) == line;
    if anchored {
      assert line[1..] == "/" + s && ("/" + s)[1..] == s;
      assert DropLeft(line[1..], IsSlash()) == DropLeft(s, IsSlash()) == s;
    } else {
      assert line[1..] == s;
    }
  }

  // ---------------------------------------------------------------------
  // What a printed negation calls for
  // ---------------------------------------------------------------------

  /** A part of a path without `*`, `?` and `[`. */
  predicate PlainPart(part: string) {
    '*' !in part && '?' !in part && '[' !in part
  }

  predicate PlainParts(parts: Path) {
    forall i | 0 <= i < |parts| :: PlainPart(parts[i])
  }

  lemma PlainIsLiteral(part: string)
    ensures HasGlob(part) <==> !PlainPart(part)
  {
    if '*' in part {
      var i :| 0 <= i < |part| && part[i] == '*';
      assert IsGlob(part[i]);
    }
    if '?' in part {
      var i :| 0 <= i < |part| && part[i] == '?';
      assert IsGlob(part[i]);
    }
    if '[' in part {
      var i :| 0 <= i < |part| && part[i] == '[';
      assert IsGlob(part[i]);
    }
  }

  lemma {:induction false} LiteralPartsOfPlain(prefix: Path, more: Path)
    requires PlainParts(prefix) && (more == [] || !PlainPart(more[0]))
    ensures LiteralParts(prefix + more) == |prefix|
  {
    if prefix == [] {
      assert prefix + more == more;
      if more != [] {
        PlainIsLiteral(more[0]);
      }
    } else {
      PlainIsLiteral(prefix[0]);
      assert (prefix + more)[0] == prefix[0] && (prefix + more)[1..] == prefix[1..] + more;
      LiteralPartsOfPlain(prefix[1..], more);
    }
  }

  /** A negation as it is written: an exclamation mark, perhaps a slash, and the parts of the path. */
  function Negation(parts: Path, anchored: bool): string {
    "!" + (if anchored then "/" else "") + Join(parts)
  }

  /**
   * A negation with a wildcard makes walkable what lies above or below the parts before the wildcard, and
   * everything if there are none.
   */
  lemma {:induction false} WildcardLineWalks(lines: seq<string>, h: Hints, i: nat, prefix: Path, wild: string, more: Path, anchored: bool, dir: Path)
    requires HintsFor(lines, h) && i < |lines| && lines[i] == Negation(prefix + [wild] + more, anchored)
    requires CleanParts(prefix + [wild] + more) && PlainParts(prefix) && !PlainPart(wild)
    ensures prefix == [] || dir <= prefix || prefix <= dir ==> h.RequiresDirWalk(dir)
  {
    var parts := prefix + [wild] + more;
    NegationRoundTrip(parts, anchored);
    assert parts == prefix + ([wild] + more);
    LiteralPartsOfPlain(prefix, [wild] + more);
    assert parts[..|prefix|] == prefix;
    if prefix == [] {
      assert NegatesBroadly(lines[i]);
    } else if dir <= prefix || prefix <= dir {
      WildcardNegationWalks(lines, h, i, prefix, dir);
    }
  }

  /** If it is the only line, nothing else is walkable. */
  lemma {:induction false} OnlyWildcardLine(h: Hints, prefix: Path, wild: string, more: Path, anchored: bool, dir: Path)
    requires HintsFor([Negation(prefix + [wild] + more, anchored)], h)
    requires CleanParts(prefix + [wild] + more) && PlainParts(prefix) && !PlainPart(wild)
    ensures h.RequiresDirWalk(dir) <==> prefix == [] || dir <= prefix || prefix <= dir
  {
    var parts, lines := prefix + [wild] + more, [Negation(prefix + [wild] + more, anchored)];
    WildcardLineWalks(lines, h, 0, prefix, wild, more, anchored, dir);
    NegationRoundTrip(parts, anchored);
    assert parts == prefix + ([wild] + more);
    LiteralPartsOfPlain(prefix, [wild] + more);
    assert parts[..|prefix|] == prefix;
    assert forall d :: d !in h.exactDirs;
    assert forall q :: q in h.wildcardPrefixes ==> q == prefix;
  }

  /** A negation without a wildcard makes exactly the proper parents of its path exact directories. */
  lemma {:induction false} PlainLineWalks(lines: seq<string>, h: Hints, i: nat, parts: Path, anchored: bool, dir: Path)
    requires HintsFor(lines, h) && i < |lines| && lines[i] == Negation(parts, anchored)
    requires parts != [] && CleanParts(parts) && PlainParts(parts)
    ensures dir != [] && dir < parts ==> dir in h.exactDirs && h.RequiresDirWalk(dir)
    ensures lines == [Negation(parts, anchored)] ==>
              && !h.recurseAll && h.wildcardPrefixes == {}
              && (dir in h.exactDirs <==> dir != [] && dir < parts)
              && (h.RequiresDirWalk(dir) <==> dir != [] && dir < parts)
  {
    NegationRoundTrip(parts, anchored);
    LiteralPartsOfPlain(parts, []);
    assert parts + [] == parts;
    if dir != [] && dir < parts {
      assert NegatesBelow(lines[i], dir);
    }
    if lines == [Negation(parts, anchored)] {
      assert forall q :: q !in h.wildcardPrefixes;
      assert h.wildcardPrefixes == {};
    }
  }

  // ---------------------------------------------------------------------
  // What may stand around the path
  // ---------------------------------------------------------------------

  predicate Blank(s: string) {
    forall i | 0 <= i < |s| :: s[i] == ' ' || s[i] == '\t'
  }

  lemma {:induction false} StripBlanks(before: string, core: string, after: string)
    requires Blank(before) && Blank(after)
    requires core != [] && !IsSpace(core[0]) && !IsSpace(core[|core| - 1])
    ensures DropRight(DropLeft(before + core + after, IsSpace), IsSpace) == core
    decreases |before| + |after|
  {
    var line := before + core + after;
    if before != [] {
      assert line[0] == before[0] && line[1..] == before[1..] + core + after;
      StripBlanks(before[1..], core, after);
    } else {
      assert line == core + after && line[0] == core[0];
      StripRight(core, after);
    }
  }

  lemma {:induction false} StripRight(core: string, after: string)
    requires Blank(after) && core != [] && !IsSpace(core[|core| - 1])
    ensures DropRight(core + after, IsSpace) == core
  {
    if after == [] {
      assert core + after == core;
    } else {
      var line := core + after;
      assert line[|line| - 1] == after[|after| - 1] && line[..|line| - 1] == core + after[..|after| - 1];
      StripRight(core, after[..|after| - 1]);
    }
  }

  lemma {:induction false} SplitLast(s: string)
    ensures Split(s + "/") == Split(s) + [""]
  {
    if s == [] {
      assert s + "/" == "/" && "/"[1..] == "";
    } else {
      assert (s + "/")[0] == s[0] && (s + "/")[1..] == s[1..] + "/";
      SplitLast(s[1..]);
      var rest := Split(s[1..]);
      assert (rest + [""])[1..] == rest[1..] + [""];
    }
  }

  lemma {:induction false} NamedAppend(a: seq<string>, b: seq<string>)
    ensures Named(a + b) == Named(a) + Named(b)
  {
    if a == [] {
      assert a + b == b;
    } else {
      assert (a + b)[0] == a[0] && (a + b)[1..] == a[1..] + b;
      NamedAppend(a[1..], b);
    }
  }

  /** Empty parts and dots drop out of a path wherever they stand, and nothing else does. */
  lemma {:induction false} NamedDrops(a: seq<string>, part: string, b: seq<string>)
    ensures Named(a + [part] + b) == Named(a) + (if part == "" || part == "." then [] else [part]) + Named(b)
  {
    NamedAppend(a + [part], b);
    NamedAppend(a, [part]);
    assert [part][1..] == [];
  }

  lemma {:induction false} LeftSlashesIrrelevant(s: string)
    ensures Named(Split(DropLeft(s, IsSlash()))) == Named(Split(s))
  {
    if s != [] && s[0] == '/' {
      LeftSlashesIrrelevant(s[1..]);
      assert ([""] + Split(s[1..]))[1..] == Split(s[1..]);
    }
  }

  lemma {:induction false} RightSlashesIrrelevant(s: string)
    ensures Named(Split(DropRight(s, IsSlash()))) == Named(Split(s))
  {
    if s != [] && s[|s| - 1] == '/' {
      var front := s[..|s| - 1];
      RightSlashesIrrelevant(front);
      assert s == front + "/";
      SplitLast(front);
      NamedDrops(Split(front), "", []);
      assert Split(front) + [""] + [] == Split(front) + [""];
      assert Named(Split(front)) + [] + Named([]) == Named(Split(front));
    }
  }

  lemma {:induction false} DotSlashesIrrelevant(s: string)
    ensures Named(Split(DropDotSlash(s))) == Named(Split(s))
  {
    if |s| >= 2 && s[..2] == "./" {
      var t := s[2..];
      DotSlashesIrrelevant(t);
      assert s == "." + "/" + t by { assert s == s[..2] + t; }
      SplitPart(".", t);
      assert (["."] + Split(t))[1..] == Split(t);
    }
  }

  /** Blanks around a negation, and slashes and dots in it, make no difference: what counts are the parts that name something. */
  lemma {:induction false} NegationParts(before: string, path: string, after: string)
    requires Blank(before) && Blank(after) && (path == [] || !IsSpace(path[|path| - 1]))
    ensures Negated(before + "!" + path + after) == Some(Named(Split(path)))
  {
    var core := "!" + path;
    assert before + "!" + path + after == before + core + after;
    StripBlanks(before, core, after);
    assert core[1..] == path;
    LeftSlashesIrrelevant(path);
    DotSlashesIrrelevant(DropLeft(path, IsSlash()));
    RightSlashesIrrelevant(DropDotSlash(DropLeft(path, IsSlash())));
  }

  /** Any other line, a comment or an escaped exclamation mark included, negates nothing. */
  lemma {:induction false} OtherLines(before: string, core: string, after: string)
    requires Blank(before) && Blank(after)
    requires core != [] ==> core[0] != '!' && !IsSpace(core[0]) && !IsSpace(core[|core| - 1])
    ensures Negated(before + core + after) == None
  {
    if core != [] {
      StripBlanks(before, core, after);
    } else {
      assert before + core + after == before + after;
      AllBlank(before + after);
    }
  }

  lemma {:induction false} AllBlank(s: string)
    requires Blank(s)
    ensures DropLeft(s, IsSpace) == []
  {
    if s == [] {
    } else {
      AllBlank(s[1..]);
    }
  }

  // ---------------------------------------------------------------------
  // A negation without a slash
  // ---------------------------------------------------------------------

  /** The lines `a` and `!keep`, for a file `keep` in the ignored directory `a`. */
  const SLASHLESS := ["a", "!keep"]

  function KeepInA(): seq<Child> {
    [Child("a", Dir([Child("keep", File)]))]
  }

  function IgnoringA(h: Hints): Rules {
    Rules({}, (path, isDir) => path == ["a"], path => h.RequiresDirWalk(path))
  }

  lemma {:induction false} SlashlessLines()
    ensures Negated("a") == None && Negated("!keep") == Some(["keep"]) && LiteralParts(["keep"]) == 1
  {
    assert "a"[0] == 'a' && DropLeft("a", IsSpace) == "a" && DropRight("a", IsSpace) == "a";
    assert "!" + "" + "keep" == "!keep" && Join(["keep"]) == "keep";
    NegationRoundTrip(["keep"], false);
    assert ["keep"][1..] == [] && !HasGlob("keep");
  }

  lemma SlashlessCallsForNothing()
    ensures !CallsForWalk(SLASHLESS, ["a"])
  {
    SlashlessLines();
    assert "a"[0] != "keep"[0];
    assert !(["a"] < ["keep"]);
  }

  lemma KeepIsWanted(h: Hints)
    ensures DistinctNames(KeepInA()) && Wanted(KeepInA(), IgnoringA(h), ["a", "keep"])
  {
    var root, f := KeepInA(), ["a", "keep"];
    assert f[1..] == ["keep"] && ["keep"][1..] == [];
    var inside := [Child("keep", File)];
    assert StandsBelow(inside[0].node, [], File);
    assert StandsAt(inside, ["keep"], File);
    assert StandsBelow(root[0].node, ["keep"], File);
    assert f[0] == "a" && f[0] !in ALWAYS_EXCLUDED by {
      assert |"a"| == 1;
    }
  }

  /** A negation without a slash matches at any depth, but the hints take it as a path from the root: the file is left out. */
  lemma SlashlessNegationMissed(h: Hints, p: Path)
    requires HintsFor(SLASHLESS, h)
    ensures Wanted(KeepInA(), IgnoringA(h), ["a", "keep"])
    ensures !(Emitted(KeepInA(), p, IgnoringA(h)) && p <= ["a", "keep"])
  {
    var rules, f := IgnoringA(h), ["a", "keep"];
    KeepIsWanted(h);
    SlashlessCallsForNothing();
    FileCoveredIffCalledFor(KeepInA(), rules, SLASHLESS, h, f);
    assert f[..1] == ["a"] && GetsTo(rules, f, 1);
    assert rules.ignored(f[..1], true) && !rules.MemberParent(f[..1]);
  }
}
