/** Path safety and diff bounds of generated files. The disallowed-path patterns are a parameter. */
module DiffGuard {
  import opened Prelude

  type Patterns = string -> bool

  const DEFAULT_MAX_FILES: nat := 50
  const DEFAULT_MAX_BYTES: nat := 500000

  predicate IsSeparator(c: char) {
    c == '/' || c == '\\'
  }

  predicate IsLetter(c: char) {
    'a' <= c <= 'z' || 'A' <= c <= 'Z'
  }

  /** `/^[a-zA-Z]:[\\/]/` */
  predicate StartsWithDrive(path: string) {
    |path| >= 3 && IsLetter(path[0]) && path[1] == ':' && IsSeparator(path[2])
  }

  predicate IsAbsolute(path: string) {
    (|path| > 0 && path[0] == '/') || StartsWithDrive(path)
  }

  function SkipSeparators(s: string): (r: string)
    ensures |r| <= |s|
  {
    if s != [] && IsSeparator(s[0]) then SkipSeparators(s[1..]) else s
  }

  /** `path.split(/[\\/]+/)`, with `segment` already read. */
  function SplitFrom(s: string, segment: string): (segments: seq<string>)
    ensures |segments| > 0
    decreases |s|
  {
    if s == [] then [segment]
    else if IsSeparator(s[0]) then [segment] + SplitFrom(SkipSeparators(s[1..]), [])
    else SplitFrom(s[1..], segment + [s[0]])
  }

  function Split(path: string): seq<string> {
    SplitFrom(path, [])
  }

  function Join(segments: seq<string>): string {
    if segments == [] then []
    else if |segments| == 1 then segments[0]
    else segments[0] + ['/'] + Join(segments[1..])
  }

  // ---------- the segments of a path ----------

  /** `words` with `gaps` between them. */
  function Spread(words: seq<string>, gaps: seq<string>): string
    requires |words| == |gaps| + 1
  {
    if gaps == [] then words[0] else words[0] + gaps[0] + Spread(words[1..], gaps[1..])
  }

  /** Words without separators, of which only the first and the last may be empty, and gaps of one or more slashes
    * and backslashes. */
  ghost predicate AreApart(words: seq<string>, gaps: seq<string>) {
    && |words| == |gaps| + 1
    && (forall word <- words :: '/' !in word && '\\' !in word)
    && (forall i | 0 < i < |gaps| :: words[i] != "")
    && forall gap <- gaps :: IsGap(gap)
  }

  predicate IsGap(gap: string) {
    gap != "" && forall c <- gap :: c == '/' || c == '\\'
  }

  lemma {:induction false} SplitReads(word: string, s: string, segment: string)
    requires forall c <- word :: !IsSeparator(c)
    ensures SplitFrom(word + s, segment) == SplitFrom(s, segment + word)
    decreases |word|
  {
    if word == [] {
      assert word + s == s && segment + word == segment;
    } else {
      assert (word + s)[1..] == word[1..] + s;
      SplitReads(word[1..], s, segment + [word[0]]);
      assert segment + [word[0]] + word[1..] == segment + word;
    }
  }

  lemma {:induction false} SkipGap(gap: string, s: string)
    requires (forall c <- gap :: IsSeparator(c)) && (s == "" || !IsSeparator(s[0]))
    ensures SkipSeparators(gap + s) == s
  {
    if gap == [] {
      assert gap + s == s;
    } else {
      assert (gap + s)[1..] == gap[1..] + s;
      SkipGap(gap[1..], s);
    }
  }

  lemma ApartTail(words: seq<string>, gaps: seq<string>)
    requires AreApart(words, gaps) && gaps != []
    ensures AreApart(words[1..], gaps[1..])
    ensures var rest := Spread(words[1..], gaps[1..]); rest == "" || !IsSeparator(rest[0])
  {
    assert forall gap <- gaps[1..] :: gap in gaps;
    assert words[1] in words;
    assert |gaps| > 1 ==> words[1] != "" && gaps[1..] != [];
  }

  /** Splitting gives the words back, whatever runs of slashes and backslashes stand between them; */
  lemma {:induction false} SplitSpread(words: seq<string>, gaps: seq<string>)
    requires AreApart(words, gaps)
    ensures Split(Spread(words, gaps)) == words
    decreases |gaps|
  {
    var first := words[0];
    assert first in words && [] + first == first;
    if gaps == [] {
      SplitReads(first, [], []);
      assert first + [] == first;
    } else {
      var gap, rest := gaps[0], Spread(words[1..], gaps[1..]);
      assert gap in gaps && words[1] in words && IsGap(gap);
      ApartTail(words, gaps);
      SplitSpread(words[1..], gaps[1..]);
      assert gap[0] in gap && forall c <- gap[1..] :: c in gap;
      SkipGap(gap[1..], rest);
      assert first + gap + rest == first + (gap + rest) && (gap + rest)[1..] == gap[1..] + rest;
      SplitReads(first, gap + rest, []);
    }
  }

  lemma {:induction false} SkipIsGap(s: string) returns (gap: string)
    ensures s == gap + SkipSeparators(s) && forall c <- gap :: IsSeparator(c)
    ensures SkipSeparators(s) == "" || !IsSeparator(SkipSeparators(s)[0])
  {
    gap := [];
    if s != [] && IsSeparator(s[0]) {
      gap := SkipIsGap(s[1..]);
      gap := [s[0]] + gap;
    }
  }

  lemma ApartCons(word: string, gap: string, words: seq<string>, gaps: seq<string>)
    requires AreApart(words, gaps) && IsGap(gap) && '/' !in word && '\\' !in word && (gaps != [] ==> words[0] != "")
    ensures AreApart([word] + words, [gap] + gaps)
    ensures Spread([word] + words, [gap] + gaps) == word + gap + Spread(words, gaps)
  {
    assert ([word] + words)[1..] == words && ([gap] + gaps)[1..] == gaps;
  }

  /** and every path is its segments with such runs between them. */
  lemma {:induction false} SplitIsSpread(s: string, segment: string) returns (gaps: seq<string>)
    requires forall c <- segment :: !IsSeparator(c)
    ensures AreApart(SplitFrom(s, segment), gaps) && Spread(SplitFrom(s, segment), gaps) == segment + s
    ensures segment <= SplitFrom(s, segment)[0] && (s != "" && !IsSeparator(s[0]) ==> SplitFrom(s, segment)[0] != "")
    decreases |s|
  {
    if s == [] {
      gaps := [];
      assert segment + s == segment;
    } else if IsSeparator(s[0]) {
      var gap := SkipIsGap(s[1..]);
      var rest := SkipSeparators(s[1..]);
      gap := [s[0]] + gap;
      gaps := SplitIsSpread(rest, []);
      assert rest == [] ==> SplitFrom(rest, []) == [[]];
      ApartCons(segment, gap, SplitFrom(rest, []), gaps);
      gaps := [gap] + gaps;
      assert segment + gap + ([] + rest) == segment + s;
    } else {
      gaps := SplitIsSpread(s[1..], segment + [s[0]]);
      assert segment + s == segment + [s[0]] + s[1..];
    }
  }

  // ---------- the walk ----------

  predicate IsSkipped(segment: string) {
    segment == "" || segment == "."
  }

  predicate IsName(segment: string) {
    !IsSkipped(segment) && segment != ".."
  }

  /** How deep below the root the first `k` segments lead. */
  function Depth(segments: seq<string>, k: nat): int
    requires k <= |segments|
  {
    if k == 0 then 0
    else Depth(segments, k - 1) + (if IsName(segments[k - 1]) then 1 else if segments[k - 1] == ".." then -1 else 0)
  }

  ghost predicate StaysInside(segments: seq<string>, n: nat)
    requires n <= |segments|
  {
    forall k: nat | k <= n :: Depth(segments, k) >= 0
  }

  /** The name at `i` is still on the path after `n` segments: no later prefix has come back up to it. */
  ghost predicate Survives(segments: seq<string>, n: nat, i: nat)
    requires i < n <= |segments|
  {
    IsName(segments[i]) && forall j: nat | i < j <= n :: Depth(segments, j) > Depth(segments, i)
  }

  /** `kept` lists, in order, the positions of exactly the names that survive. */
  ghost predicate Lists(segments: seq<string>, n: nat, kept: seq<nat>)
    requires n <= |segments|
  {
    && (forall p, q | 0 <= p < q < |kept| :: kept[p] < kept[q])
    && (forall p | 0 <= p < |kept| :: kept[p] < n)
    && (forall i: nat | i < n :: i in kept <==> Survives(segments, n, i))
  }

  ghost predicate Denotes(segments: seq<string>, kept: seq<nat>, names: seq<string>) {
    && |kept| == |names|
    && forall p | 0 <= p < |kept| :: kept[p] < |segments| && segments[kept[p]] == names[p]
  }

  /** Where the walk stands after `n` segments. */
  ghost predicate WalkState(segments: seq<string>, n: nat, kept: seq<nat>, names: seq<string>)
    requires n <= |segments|
  {
    && StaysInside(segments, n) && Lists(segments, n, kept) && Denotes(segments, kept, names)
    && |kept| == Depth(segments, n)
    && (forall p | 0 <= p < |kept| :: Depth(segments, kept[p]) == p)
  }

  lemma SkipStep(segments: seq<string>, n: nat, kept: seq<nat>, names: seq<string>)
    requires n < |segments| && WalkState(segments, n, kept, names) && IsSkipped(segments[n])
    ensures WalkState(segments, n + 1, kept, names)
  {
    forall i: nat | i < n ensures Survives(segments, n + 1, i) <==> Survives(segments, n, i) {
      assert Depth(segments, n + 1) == Depth(segments, n);
      if IsName(segments[i]) && i + 1 <= n {
        assert Survives(segments, n, i) ==> Depth(segments, n) > Depth(segments, i);
      }
    }
    assert !Survives(segments, n + 1, n);
  }

  lemma NameStep(segments: seq<string>, n: nat, kept: seq<nat>, names: seq<string>)
    requires n < |segments| && WalkState(segments, n, kept, names) && IsName(segments[n])
    ensures WalkState(segments, n + 1, kept + [n], names + [segments[n]])
  {
    assert Depth(segments, n + 1) == Depth(segments, n) + 1;
    forall i: nat | i < n ensures Survives(segments, n + 1, i) <==> Survives(segments, n, i) {
      assert Survives(segments, n, i) ==> Depth(segments, n) > Depth(segments, i);
    }
    assert Survives(segments, n + 1, n);
    forall i: nat | i < n + 1 ensures i in kept + [n] <==> Survives(segments, n + 1, i) {
    }
  }

  lemma UpStep(segments: seq<string>, n: nat, kept: seq<nat>, names: seq<string>)
    requires n < |segments| && WalkState(segments, n, kept, names) && segments[n] == ".." && kept != []
    ensures WalkState(segments, n + 1, kept[..|kept| - 1], names[..|names| - 1])
  {
    var top := |kept| - 1;
    var rest := kept[..top];
    assert Depth(segments, n + 1) == top;
    forall i: nat | i < n + 1 ensures i in rest <==> Survives(segments, n + 1, i) {
      if i in rest {
        var p :| 0 <= p < top && kept[p] == i;
        assert i in kept && Depth(segments, i) == p < top;
      }
      if i < n && Survives(segments, n + 1, i) {
        assert Survives(segments, n, i);
        var p :| 0 <= p < |kept| && kept[p] == i;
        assert Depth(segments, n + 1) > Depth(segments, i);
        assert rest[p] == i;
      }
    }
  }

  lemma EscapeStep(segments: seq<string>, n: nat, kept: seq<nat>, names: seq<string>)
    requires n < |segments| && WalkState(segments, n, kept, names) && segments[n] == ".." && kept == []
    ensures !StaysInside(segments, |segments|)
  {
    assert Depth(segments, n + 1) == -1;
  }

  // ---------- validation ----------

  /** The names the path leads through, if it is relative, free of NULs, never above the root, and ends
    * below it. */
  ghost predicate LeadsTo(path: string, names: seq<string>) {
    var segments := Split(path);
    && path != "" && !IsAbsolute(path) && '\0' !in path && names != []
    && exists kept :: WalkState(segments, |segments|, kept, names)
  }

  /** What validation accepts, and as what. */
  ghost predicate ValidatesTo(path: string, disallowed: Patterns, result: string) {
    exists names :: LeadsTo(path, names) && result == Join(names) && !disallowed(result)
  }

  ghost predicate IsSafe(path: string, disallowed: Patterns) {
    exists result :: ValidatesTo(path, disallowed, result)
  }

  method ValidateRelativePath(path: string, disallowed: Patterns) returns (result: Option<string>)
    ensures result.Some? ==> ValidatesTo(path, disallowed, result.value)
    ensures result.None? ==> !IsSafe(path, disallowed)
  {
    LeadsSomewhere(path);
    if |path| == 0 {
      return None;
    }
    if IsAbsolute(path) {
      return None;
    }
    if '\0' in path {
      return None;
    }
    var segments := Split(path);
    var normalized: seq<string> := [];
    ghost var kept: seq<nat> := [];
    for i := 0 to |segments|
      invariant WalkState(segments, i, kept, normalized)
    {
      var segment := segments[i];
      if segment == "" || segment == "." {
        SkipStep(segments, i, kept, normalized);
        continue;
      }
      if segment == ".." {
        if |normalized| == 0 {
          EscapeStep(segments, i, kept, normalized);
          return None;
        }
        UpStep(segments, i, kept, normalized);
        normalized, kept := normalized[..|normalized| - 1], kept[..|kept| - 1];
        continue;
      }
      NameStep(segments, i, kept, normalized);
      normalized, kept := normalized + [segment], kept + [i];
    }
    if |normalized| == 0 {
      return None;
    }
    assert LeadsTo(path, normalized);
    var normalizedPath := Join(normalized);
    if disallowed(normalizedPath) {
      DisallowedIsUnsafe(path, disallowed, normalized);
      return None;
    }
    return Some(normalizedPath);
  }

  /** A path leads somewhere exactly when it is a non-empty relative path without NULs, no prefix of its
    * segments has more `..` than names, and the whole has more names. */
  lemma LeadsSomewhere(path: string)
    ensures (exists names :: LeadsTo(path, names)) <==>
              path != "" && path[0] != '/' && '\0' !in path
              && !(|path| >= 3 && ('a' <= path[0] <= 'z' || 'A' <= path[0] <= 'Z') && path[1] == ':' && (path[2] == '/' || path[2] == '\\'))
              && StaysInside(Split(path), |Split(path)|) && Depth(Split(path), |Split(path)|) >= 1
  {
    var segments := Split(path);
    if path != "" && !IsAbsolute(path) && '\0' !in path && StaysInside(segments, |segments|) && Depth(segments, |segments|) >= 1 {
      var kept, names := WalkExists(segments, |segments|);
      assert LeadsTo(path, names);
    }
  }

  /** A walk that never leaves the root arrives. */
  lemma {:induction false} WalkExists(segments: seq<string>, n: nat) returns (kept: seq<nat>, names: seq<string>)
    requires n <= |segments| && StaysInside(segments, n)
    ensures WalkState(segments, n, kept, names)
  {
    if n == 0 {
      kept, names := [], [];
    } else {
      kept, names := WalkExists(segments, n - 1);
      if IsSkipped(segments[n - 1]) {
        SkipStep(segments, n - 1, kept, names);
      } else if segments[n - 1] == ".." {
        assert Depth(segments, n) == |kept| - 1;
        UpStep(segments, n - 1, kept, names);
        kept, names := kept[..|kept| - 1], names[..|names| - 1];
      } else {
        NameStep(segments, n - 1, kept, names);
        kept, names := kept + [n - 1], names + [segments[n - 1]];
      }
    }
  }

  lemma DisallowedIsUnsafe(path: string, disallowed: Patterns, names: seq<string>)
    requires LeadsTo(path, names) && disallowed(Join(names))
    ensures !IsSafe(path, disallowed)
  {
    forall other | LeadsTo(path, other) ensures other == names {
      LeadsToUnique(path, other, names);
    }
  }

  // ---------- what a validated path looks like ----------

  predicate IsPlain(segment: string) {
    IsName(segment) && '\0' !in segment && forall c <- segment :: !IsSeparator(c)
  }

  lemma {:induction false} SplitIsClean(s: string, segment: string)
    requires (forall c <- segment :: !IsSeparator(c)) && '\0' !in s && '\0' !in segment
    ensures forall part <- SplitFrom(s, segment) :: '\0' !in part && forall c <- part :: !IsSeparator(c)
    decreases |s|
  {
    if s != [] {
      if IsSeparator(s[0]) {
        SkipKeepsChars(s[1..]);
        SplitIsClean(SkipSeparators(s[1..]), []);
      } else {
        SplitIsClean(s[1..], segment + [s[0]]);
      }
    }
  }

  lemma {:induction false} SkipKeepsChars(s: string)
    ensures forall c <- SkipSeparators(s) :: c in s
  {
    if s != [] && IsSeparator(s[0]) {
      SkipKeepsChars(s[1..]);
    }
  }

  /** The walk reaches proper names only. */
  lemma NamesArePlain(path: string, names: seq<string>)
    requires LeadsTo(path, names)
    ensures forall name <- names :: IsPlain(name)
    ensures forall name <- names :: name != "" && name != "." && name != ".." && '\0' !in name && '/' !in name && '\\' !in name
  {
    SplitIsClean(path, []);
    var segments := Split(path);
    var kept :| WalkState(segments, |segments|, kept, names);
    forall name | name in names ensures IsPlain(name) {
      var p :| 0 <= p < |names| && names[p] == name;
      assert kept[p] in kept;
      assert Survives(segments, |segments|, kept[p]);
      assert segments[kept[p]] in segments;
    }
  }

  lemma {:induction false} SplitJoin(names: seq<string>)
    requires names != [] && forall name <- names :: IsPlain(name)
    ensures Split(Join(names)) == names
    decreases |names|
  {
    var first := names[0];
    assert IsPlain(first);
    if |names| == 1 {
      SplitReads(first, [], []);
      assert first + [] == first && [] + first == first;
    } else {
      var rest := Join(names[1..]);
      SplitJoin(names[1..]);
      JoinStart(names[1..]);
      assert Join(names) == first + (['/'] + rest);
      SplitReads(first, ['/'] + rest, []);
      assert [] + first == first && (['/'] + rest)[1..] == rest;
      assert SkipSeparators(rest) == rest;
    }
  }

  lemma {:induction false} JoinStart(names: seq<string>)
    requires names != [] && forall name <- names :: IsPlain(name)
    ensures Join(names) != [] && !IsSeparator(Join(names)[0]) && '\0' !in Join(names)
    decreases |names|
  {
    assert IsPlain(names[0]);
    if |names| > 1 {
      JoinStart(names[1..]);
      assert Join(names)[0] == names[0][0];
    }
  }

  /** The positions `first`, `first + 1`, ..., `n` of them. */
  function Range(first: nat, n: nat): (r: seq<nat>)
    ensures |r| == n && forall i | 0 <= i < n :: r[i] == first + i
  {
    if n == 0 then [] else Range(first, n - 1) + [first + n - 1]
  }

  lemma {:induction false} WalkOfNames(names: seq<string>, n: nat)
    requires n <= |names| && forall name <- names :: IsName(name)
    ensures WalkState(names, n, Range(0, n), names[..n])
  {
    if n > 0 {
      WalkOfNames(names, n - 1);
      assert IsName(names[n - 1]);
      NameStep(names, n - 1, Range(0, n - 1), names[..n - 1]);
      assert names[..n - 1] + [names[n - 1]] == names[..n];
    } else {
      assert names[..0] == [];
    }
  }

  /** A validated path validates to itself again, exactly when it does not look like a Windows drive path. */
  lemma Revalidation(path: string, names: seq<string>)
    requires LeadsTo(path, names)
    ensures LeadsTo(Join(names), names) <==> !StartsWithDrive(Join(names))
    ensures StartsWithDrive(Join(names)) ==> IsAbsolute(Join(names))
  {
    NamesArePlain(path, names);
    PlainLeads(names);
  }

  /** Plain names, joined, lead to themselves, unless they look like a drive path. */
  lemma PlainLeads(names: seq<string>)
    requires names != [] && forall name <- names :: IsPlain(name)
    ensures LeadsTo(Join(names), names) <==> !StartsWithDrive(Join(names))
    ensures StartsWithDrive(Join(names)) ==> IsAbsolute(Join(names))
  {
    JoinStart(names);
    SplitJoin(names);
    WalkOfNames(names, |names|);
    assert names[..|names|] == names;
    assert WalkState(Split(Join(names)), |names|, Range(0, |names|), names);
  }

  lemma {:induction false} ListsUnique(segments: seq<string>, n: nat, k: seq<nat>, l: seq<nat>)
    requires n <= |segments| && Lists(segments, n, k) && Lists(segments, n, l)
    ensures k == l
  {
    SortedSameMembers(k, l);
  }

  lemma {:induction false} SortedSameMembers(k: seq<nat>, l: seq<nat>)
    requires forall p, q | 0 <= p < q < |k| :: k[p] < k[q]
    requires forall p, q | 0 <= p < q < |l| :: l[p] < l[q]
    requires forall i: nat :: i in k <==> i in l
    ensures k == l
    decreases |k|
  {
    assert l != [] ==> l[0] in k;
    if k != [] {
      assert k[0] in l;
      var p :| 0 <= p < |l| && l[p] == k[0];
      var q :| 0 <= q < |k| && k[q] == l[0];
      assert k[0] == l[0];
      forall i: nat ensures i in k[1..] <==> i in l[1..] {
        if i in k[1..] {
          var a :| 0 <= a < |k[1..]| && k[1..][a] == i;
          assert k[a + 1] == i && i in l && i != l[0];
        }
        if i in l[1..] {
          var a :| 0 <= a < |l[1..]| && l[1..][a] == i;
          assert l[a + 1] == i && i in k && i != k[0];
        }
      }
      SortedSameMembers(k[1..], l[1..]);
    }
  }

  /** A path leads to one list of names only. */
  lemma LeadsToUnique(path: string, a: seq<string>, b: seq<string>)
    requires LeadsTo(path, a) && LeadsTo(path, b)
    ensures a == b
  {
    var segments := Split(path);
    var k :| WalkState(segments, |segments|, k, a);
    var l :| WalkState(segments, |segments|, l, b);
    ListsUnique(segments, |segments|, k, l);
  }

  /** Whatever plain names a path consists of, `./` in front of it leads to the same place. */
  lemma DotPrefix(names: seq<string>)
    requires names != [] && forall name <- names :: IsPlain(name)
    ensures LeadsTo(['.', '/'] + Join(names), names)
  {
    JoinStart(names);
    SplitAfterDot(names);
    WalkAfterDot(names, [['.']] + names);
    var path := ['.', '/'] + Join(names);
    assert path[0] == '.' && '\0' !in path;
  }

  lemma WalkAfterDot(names: seq<string>, segments: seq<string>)
    requires segments == [['.']] + names && forall name <- names :: IsPlain(name)
    ensures exists kept :: WalkState(segments, |segments|, kept, names)
  {
    DotThenNames(names, |names|);
    assert names[..|names|] == names;
  }

  lemma SplitAfterDot(names: seq<string>)
    requires names != [] && forall name <- names :: IsPlain(name)
    ensures Split(['.', '/'] + Join(names)) == [['.']] + names
  {
    JoinStart(names);
    SplitJoin(names);
    var rest := Join(names);
    assert ['.', '/'] + rest == ['.'] + (['/'] + rest) && (['/'] + rest)[1..] == rest && [] + ['.'] == ['.'];
    SplitReads(['.'], ['/'] + rest, []);
    assert SkipSeparators(rest) == rest;
  }

  lemma {:induction false} DotThenNames(names: seq<string>, n: nat)
    requires n <= |names| && forall name <- names :: IsPlain(name)
    ensures WalkState([['.']] + names, n + 1, Range(1, n), names[..n])
  {
    var segments := [['.']] + names;
    if n == 0 {
      assert WalkState(segments, 0, [], []);
      SkipStep(segments, 0, [], []);
      assert names[..0] == [];
    } else {
      DotThenNames(names, n - 1);
      assert segments[n] == names[n - 1] && IsPlain(names[n - 1]);
      NameStep(segments, n, Range(1, n - 1), names[..n - 1]);
      assert names[..n - 1] + [names[n - 1]] == names[..n];
    }
  }

  /** So there are accepted paths whose own result is rejected: `./C:/x` validates to `C:/x`. */
  lemma DriveIsNotIdempotent()
    ensures LeadsTo(['.', '/'] + Join([['C', ':'], ['x']]), [['C', ':'], ['x']])
    ensures IsAbsolute(Join([['C', ':'], ['x']]))
  {
    var names := [['C', ':'], ['x']];
    assert IsPlain(names[0]) && IsPlain(names[1]);
    DotPrefix(names);
    assert names[1..] == [['x']];
    assert Join(names) == ['C', ':'] + ['/'] + ['x'];
  }

  // ---------- bounds and the commit ----------

  datatype ChangedFile = ChangedFile(path: string, bytesChanged: nat)

  datatype Violation = NoFiles | TooManyFiles | TooManyBytes | DisallowedPath(path: string)

  function TotalBytes(files: seq<ChangedFile>): nat {
    if files == [] then 0 else TotalBytes(files[..|files| - 1]) + files[|files| - 1].bytesChanged
  }

  /** `assertDiffWithinBounds`: the first violation found, in the order of the checks. */
  method AssertDiffWithinBounds(files: seq<ChangedFile>, disallowed: Patterns, maxFiles: nat := DEFAULT_MAX_FILES, maxBytes: nat := DEFAULT_MAX_BYTES)
    returns (violation: Option<Violation>)
    ensures violation.None? <==>
              0 < |files| <= maxFiles && TotalBytes(files) <= maxBytes && forall f <- files :: !disallowed(f.path)
    ensures violation == Some(NoFiles) <==> files == []
    ensures violation == Some(TooManyFiles) <==> files != [] && |files| > maxFiles
    ensures violation == Some(TooManyBytes) <==> 0 < |files| <= maxFiles && TotalBytes(files) > maxBytes
    ensures violation.Some? && violation.value.DisallowedPath? ==>
              disallowed(violation.value.path) && exists f <- files :: f.path == violation.value.path
  {
    if |files| == 0 {
      return Some(NoFiles);
    }
    if |files| > maxFiles {
      return Some(TooManyFiles);
    }
    var totalBytes := 0;
    for i := 0 to |files|
      invariant totalBytes == TotalBytes(files[..i])
    {
      assert files[..i + 1][..i] == files[..i];
      totalBytes := totalBytes + files[i].bytesChanged;
    }
    assert files[..|files|] == files;
    if totalBytes > maxBytes {
      return Some(TooManyBytes);
    }
    for i := 0 to |files|
      invariant forall j | 0 <= j < i :: !disallowed(files[j].path)
    {
      if disallowed(files[i].path) {
        return Some(DisallowedPath(files[i].path));
      }
    }
    return None;
  }

  /** A generated file; `bytes` is the length of its content in UTF-8. */
  datatype GeneratedFile = GeneratedFile(path: string, content: string, bytes: nat)

  datatype WrittenFile = WrittenFile(path: string, content: string)

  datatype CommitResult = Reused(sha: string) | UnsafePath(path: string) | WriteFailed | OutOfBounds(violation: Violation) | Committed

  /** The files of `files[..n]` as `commitAndPush` writes them. */
  ghost predicate WritesOf(files: seq<GeneratedFile>, n: nat, disallowed: Patterns, written: seq<WrittenFile>) {
    && |written| == n <= |files|
    && forall i | 0 <= i < n ::
         written[i].content == files[i].content && ValidatesTo(files[i].path, disallowed, written[i].path)
  }

  /** File `i` comes no later than the first write that fails. */
  predicate IsTried(failing: Option<nat>, i: nat) {
    failing.Some? ==> i <= failing.value
  }

  /** `commitAndPush` up to its commit. Every path written is a validated result; the writes stop at the
    * first unsafe path, or with the file `failing` whose write throws, and the files before it have been
    * written by then. */
  method CommitAndPush(existing: Option<string>, files: seq<GeneratedFile>, disallowed: Patterns, failing: Option<nat>,
                       maxFiles: nat := DEFAULT_MAX_FILES, maxBytes: nat := DEFAULT_MAX_BYTES)
    returns (result: CommitResult, written: seq<WrittenFile>)
    ensures result.Reused? <==> existing.Some?
    ensures result.Reused? ==> written == [] && existing == Some(result.sha)
    ensures !result.Reused? ==> WritesOf(files, |written|, disallowed, written)
    ensures result.UnsafePath? ==>
              |written| < |files| && files[|written|].path == result.path && !IsSafe(result.path, disallowed)
    ensures result.UnsafePath? <==>
              existing.None? && exists i: nat :: i < |files| && IsTried(failing, i) && !IsSafe(files[i].path, disallowed)
    ensures result.WriteFailed? ==> failing == Some(|written|)
    ensures result.WriteFailed? <==>
              existing.None? && failing.Some? && failing.value < |files|
              && forall i: nat | i < |files| && IsTried(failing, i) :: IsSafe(files[i].path, disallowed)
    ensures result.OutOfBounds? || result.Committed? ==> |written| == |files|
    ensures result.OutOfBounds? ==> !result.violation.DisallowedPath?
    ensures result.Committed? <==>
              existing.None? && !(failing.Some? && failing.value < |files|) && (forall f <- files :: IsSafe(f.path, disallowed))
              && 0 < |files| <= maxFiles && GeneratedBytes(files) <= maxBytes
  {
    written := [];
    if existing.Some? {
      return Reused(existing.value), written;
    }
    var stop, changedFiles;
    stop, written, changedFiles := WriteFiles(files, disallowed, failing);
    AreSafe(files, |written|, disallowed, written);
    if stop == AtUnsafe {
      return UnsafePath(files[|written|].path), written;
    }
    if stop == AtFault {
      return WriteFailed, written;
    }
    var violation := AssertDiffWithinBounds(changedFiles, disallowed, maxFiles, maxBytes);
    return if violation.Some? then OutOfBounds(violation.value) else Committed, written;
  }

  lemma AreSafe(files: seq<GeneratedFile>, n: nat, disallowed: Patterns, written: seq<WrittenFile>)
    requires WritesOf(files, n, disallowed, written)
    ensures forall i: nat | i < n :: IsSafe(files[i].path, disallowed)
  {
    forall i: nat | i < n ensures IsSafe(files[i].path, disallowed) {
      assert ValidatesTo(files[i].path, disallowed, written[i].path);
    }
  }

  /** Why the writes stop. */
  datatype Stop = AtEnd | AtUnsafe | AtFault

  /** The loop of `commitAndPush`: validate a path, write its file, go on to the next. */
  method WriteFiles(files: seq<GeneratedFile>, disallowed: Patterns, failing: Option<nat>)
    returns (stop: Stop, written: seq<WrittenFile>, changedFiles: seq<ChangedFile>)
    ensures WritesOf(files, |written|, disallowed, written) && (failing.Some? ==> |written| <= failing.value)
    ensures stop == AtUnsafe ==> |written| < |files| && !IsSafe(files[|written|].path, disallowed)
    ensures stop == AtFault ==>
              |written| < |files| && failing == Some(|written|) && IsSafe(files[|written|].path, disallowed)
    ensures stop == AtEnd ==> |written| == |files| == |changedFiles| && TotalBytes(changedFiles) == GeneratedBytes(files)
    ensures stop == AtEnd ==> forall f <- changedFiles :: !disallowed(f.path)
  {
    written, changedFiles := [], [];
    for i := 0 to |files|
      invariant IsWritten(files, i, disallowed, written, changedFiles) && (failing.Some? ==> i <= failing.value)
    {
      var safePath := ValidateRelativePath(files[i].path, disallowed);
      if safePath.None? {
        return AtUnsafe, written, changedFiles;
      }
      if failing == Some(i) {
        return AtFault, written, changedFiles;
      }
      WriteOne(files, i, disallowed, written, changedFiles, safePath.value);
      written := written + [WrittenFile(safePath.value, files[i].content)];
      changedFiles := changedFiles + [ChangedFile(safePath.value, files[i].bytes)];
    }
    assert files[..|files|] == files;
    stop := AtEnd;
  }

  /** The first `i` files have been written, and are listed with their sizes. */
  ghost predicate IsWritten(files: seq<GeneratedFile>, i: nat, disallowed: Patterns, written: seq<WrittenFile>, changedFiles: seq<ChangedFile>) {
    && WritesOf(files, i, disallowed, written)
    && |changedFiles| == i && TotalBytes(changedFiles) == GeneratedBytes(files[..i])
    && forall j | 0 <= j < i :: !disallowed(changedFiles[j].path)
  }

  lemma WriteOne(files: seq<GeneratedFile>, i: nat, disallowed: Patterns, written: seq<WrittenFile>, changedFiles: seq<ChangedFile>, path: string)
    requires i < |files| && IsWritten(files, i, disallowed, written, changedFiles)
    requires ValidatesTo(files[i].path, disallowed, path)
    ensures IsWritten(files, i + 1, disallowed, written + [WrittenFile(path, files[i].content)],
                      changedFiles + [ChangedFile(path, files[i].bytes)])
  {
    BytesSnoc(files, i, changedFiles, path);
    var later := written + [WrittenFile(path, files[i].content)];
    forall j | 0 <= j < i + 1 ensures later[j].content == files[j].content && ValidatesTo(files[j].path, disallowed, later[j].path) {
      assert j < i ==> ValidatesTo(files[j].path, disallowed, written[j].path);
    }
  }

  lemma BytesSnoc(files: seq<GeneratedFile>, i: nat, changedFiles: seq<ChangedFile>, path: string)
    requires i < |files|
    ensures GeneratedBytes(files[..i + 1]) == GeneratedBytes(files[..i]) + files[i].bytes
    ensures TotalBytes(changedFiles + [ChangedFile(path, files[i].bytes)]) == TotalBytes(changedFiles) + files[i].bytes
  {
    assert files[..i + 1][..i] == files[..i];
    assert (changedFiles + [ChangedFile(path, files[i].bytes)])[..|changedFiles|] == changedFiles;
  }

  /** What the comment in the source rules out: of a safe file and one that leaves the root, the first is
    * written before the second is rejected, whatever the patterns, as long as they allow the first. */
  method WritesBeforeRejecting(content: string, disallowed: Patterns) returns (result: CommitResult, written: seq<WrittenFile>)
    requires !disallowed(['a'])
    ensures result == UnsafePath(['.', '.']) && written == [WrittenFile(['a'], content)]
  {
    var files := [GeneratedFile(['a'], content, |content|), GeneratedFile(['.', '.'], content, |content|)];
    PlainLeads([['a']]);
    UpIsUnsafe(disallowed);
    assert Join([['a']]) == ['a'];
    assert ValidatesTo(files[0].path, disallowed, ['a']);
    assert IsTried(None, 1) && !IsSafe(files[1].path, disallowed);
    result, written := CommitAndPush(None, files, disallowed, None);
    assert |written| == 1;
    assert ValidatesTo(files[0].path, disallowed, written[0].path);
    ValidatesToUnique(files[0].path, disallowed, written[0].path, ['a']);
  }

  lemma UpIsUnsafe(disallowed: Patterns)
    ensures !IsSafe(['.', '.'], disallowed)
  {
    var path, segments := ['.', '.'], Split(['.', '.']);
    SplitReads(path, [], []);
    assert path + [] == path && [] + path == path;
    assert segments == [path];
    assert Depth(segments, 1) == -1;
    LeadsSomewhere(path);
  }

  lemma ValidatesToUnique(path: string, disallowed: Patterns, a: string, b: string)
    requires ValidatesTo(path, disallowed, a) && ValidatesTo(path, disallowed, b)
    ensures a == b
  {
    var m :| LeadsTo(path, m) && a == Join(m) && !disallowed(a);
    var n :| LeadsTo(path, n) && b == Join(n) && !disallowed(b);
    LeadsToUnique(path, m, n);
  }

  function GeneratedBytes(files: seq<GeneratedFile>): nat {
    if files == [] then 0 else GeneratedBytes(files[..|files| - 1]) + files[|files| - 1].bytes
  }
}
