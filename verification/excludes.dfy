/** The exclude patterns of a source and the two deciders that apply them: the scanner's matcher
    (internal/catalog) and the webhook receiver's (internal/api). Glob matching and lower-casing are
    the parameters of Glob: nothing is assumed about them. */
module Excludes {
  import opened Bytes
  import opened Paths

  /** path.Match (false on a malformed pattern) and strings.ToLower. */
  datatype Glob = Glob(matches: (Str, Str) -> bool, lower: Str -> Str)

  datatype Pattern = Pattern(glob: Str, fold: bool, anchored: bool, dirOnly: bool)

  function TrimRight(s: Str): Str {
    if s != [] && s[|s| - 1] == SLASH then TrimRight(s[..|s| - 1]) else s
  }

  function TrimLeft(s: Str): Str {
    if s != [] && s[0] == SLASH then TrimLeft(s[1..]) else s
  }

  function Parse(g: Glob, raw: Str, fold: bool): Pattern {
    var dirOnly := raw != [] && raw[|raw| - 1] == SLASH;
    var s := if dirOnly then TrimRight(raw) else raw;
    var anchored := s != [] && s[0] == SLASH;
    var t := if anchored then TrimLeft(s) else s;
    Pattern(if fold then g.lower(t) else t, fold, anchored, dirOnly)
  }

  function ParseAll(g: Glob, raws: seq<Str>, fold: bool): (ps: seq<Pattern>)
    ensures |ps| == |raws|
    ensures forall i :: 0 <= i < |raws| ==> ps[i] == Parse(g, raws[i], fold)
  {
    seq(|raws|, i requires 0 <= i < |raws| => Parse(g, raws[i], fold))
  }

  /** The default patterns, matched case-insensitively, then the source's own. */
  function Compile(g: Glob, defaults: seq<Str>, own: seq<Str>): seq<Pattern> {
    ParseAll(g, defaults, true) + ParseAll(g, own, false)
  }

  /** One pattern hits the entry at rel with base name base. */
  predicate Hits(g: Glob, p: Pattern, rel: Str, base: Str, isDir: bool) {
    var r, b := if p.fold then g.lower(rel) else rel, if p.fold then g.lower(base) else base;
    (p.dirOnly ==> isDir) && ((!p.anchored && g.matches(p.glob, b)) || g.matches(p.glob, r))
  }

  predicate Excluded(g: Glob, ps: seq<Pattern>, rel: Str, base: Str, isDir: bool) {
    exists p | p in ps :: Hits(g, p, rel, base, isDir)
  }

  /** Decides about one entry: its relative path, its base name, whether it is a folder. */
  type Decider = (Str, Str, bool) -> bool

  function DeciderOf(g: Glob, ps: seq<Pattern>): Decider {
    (rel, base, isDir) => Excluded(g, ps, rel, base, isDir)
  }

  /** The i-th element of a path, as an entry, is excluded. */
  predicate ElementExcluded(ex: Decider, parts: seq<Str>, i: int, isDir: bool)
    requires 0 <= i < |parts|
  {
    ex(Join(parts[..i + 1]), parts[i], i < |parts| - 1 || isDir)
  }

  /** A path is left out because it or one of its folders is excluded. */
  predicate ExcludedWithin(ex: Decider, rel: Str, isDir: bool) {
    exists i | 0 <= i < |Split(rel)| :: ElementExcluded(ex, Split(rel), i, isDir)
  }

  // ---- The scanner's matcher ----

  method NewMatcher(g: Glob, defaults: seq<Str>, own: seq<Str>) returns (ps: seq<Pattern>)
    ensures ps == Compile(g, defaults, own)
  {
    ps := [];
    for i := 0 to |defaults|
      invariant ps == ParseAll(g, defaults, true)[..i]
    {
      ps := ps + [Parse(g, defaults[i], true)];
    }
    ghost var d := ParseAll(g, defaults, true);
    assert d[..|defaults|] == d;
    for i := 0 to |own|
      invariant ps == d + ParseAll(g, own, false)[..i]
    {
      ps := ps + [Parse(g, own[i], false)];
    }
    assert ParseAll(g, own, false)[..|own|] == ParseAll(g, own, false);
  }

  /** matcher.excluded: the lower-cased names are computed when the first folding pattern needs them
      (and again while the lower-cased path is empty). */
  method MatcherExcluded(g: Glob, ps: seq<Pattern>, rel: Str, base: Str, isDir: bool) returns (r: bool)
    ensures r == Excluded(g, ps, rel, base, isDir)
  {
    var lrel: Str, lbase: Str := [], [];
    for i := 0 to |ps|
      invariant forall j :: 0 <= j < i ==> !Hits(g, ps[j], rel, base, isDir)
      invariant lrel != [] ==> lrel == g.lower(rel) && lbase == g.lower(base)
    {
      var p := ps[i];
      if p.dirOnly && !isDir {
        continue;
      }
      var rr, b := rel, base;
      if p.fold {
        if lrel == [] {
          lrel, lbase := g.lower(rel), g.lower(base);
        }
        rr, b := lrel, lbase;
      }
      if !p.anchored {
        if g.matches(p.glob, b) {
          assert p in ps && Hits(g, p, rel, base, isDir);
          return true;
        }
      }
      if g.matches(p.glob, rr) {
        assert p in ps && Hits(g, p, rel, base, isDir);
        return true;
      }
    }
    return false;
  }

  /** catalog.ExcludedWithin. */
  method MatcherExcludedWithin(g: Glob, ps: seq<Pattern>, rel: Str, isDir: bool) returns (r: bool)
    ensures r == ExcludedWithin(DeciderOf(g, ps), rel, isDir)
  {
    var parts := Split(rel);
    for i := 0 to |parts|
      invariant forall j :: 0 <= j < i ==> !ElementExcluded(DeciderOf(g, ps), parts, j, isDir)
    {
      var dir := i < |parts| - 1 || isDir;
      var hit := MatcherExcluded(g, ps, Join(parts[..i + 1]), parts[i], dir);
      if hit {
        assert ElementExcluded(DeciderOf(g, ps), parts, i, isDir);
        return true;
      }
    }
    return false;
  }

  // ---- The webhook receiver's decider ----

  method SourceExcludesMatch(g: Glob, ps: seq<Pattern>, rel: Str, base: Str, isDir: bool) returns (r: bool)
    ensures r == DeciderOf(g, ps)(rel, base, isDir)
  {
    var lrel, lbase := g.lower(rel), g.lower(base);
    for i := 0 to |ps|
      invariant forall j :: 0 <= j < i ==> !Hits(g, ps[j], rel, base, isDir)
    {
      var p := ps[i];
      if p.dirOnly && !isDir {
        continue;
      }
      var rr, b := if p.fold then lrel else rel, if p.fold then lbase else base;
      if (!p.anchored && g.matches(p.glob, b)) || g.matches(p.glob, rr) {
        assert p in ps && Hits(g, p, rel, base, isDir);
        return true;
      }
    }
    return false;
  }

  /** Going from slash to slash in rel, from offset i. */
  predicate WithinFrom(ex: Decider, rel: Str, i: nat)
    requires i <= |rel|
    decreases |rel| - i
  {
    var j := SlashFrom(rel, i);
    if j == |rel| then ex(rel, rel[i..], false)
    else ex(rel[..j], rel[i..j], true) || WithinFrom(ex, rel, j + 1)
  }

  /** The k-th element behind pre is excluded. */
  predicate ElementExcludedAfter(ex: Decider, pre: Str, parts: seq<Str>, k: int)
    requires 0 <= k < |parts|
  {
    ex(pre + Join(parts[..k + 1]), parts[k], k < |parts| - 1)
  }

  lemma ElementExcludedShift(ex: Decider, pre: Str, parts: seq<Str>, k: int)
    requires 0 < k < |parts|
    ensures ElementExcludedAfter(ex, pre, parts, k)
        <==> ElementExcludedAfter(ex, pre + parts[0] + [SLASH], parts[1..], k - 1)
  {
    assert parts[..k + 1][1..] == parts[1..][..k - 1 + 1];
    assert pre + Join(parts[..k + 1]) == pre + parts[0] + [SLASH] + Join(parts[1..][..k - 1 + 1]);
  }

  lemma FirstElement(ex: Decider, rel: Str, i: nat)
    requires i <= |rel|
    ensures var j := SlashFrom(rel, i);
      ElementExcludedAfter(ex, rel[..i], SplitFrom(rel, i), 0) <==> ex(rel[..j], rel[i..j], j < |rel|)
  {
    var j := SlashFrom(rel, i);
    var parts := SplitFrom(rel, i);
    assert parts[0] == rel[i..j] && (j < |rel| <==> |parts| > 1);
    assert parts[..0 + 1] == [parts[0]] && rel[..i] + rel[i..j] == rel[..j];
  }

  ghost predicate AnyElementAfter(ex: Decider, pre: Str, parts: seq<Str>) {
    exists k :: 0 <= k < |parts| && ElementExcludedAfter(ex, pre, parts, k)
  }

  lemma AnyElementStep(ex: Decider, pre: Str, parts: seq<Str>)
    requires |parts| > 1
    ensures AnyElementAfter(ex, pre, parts)
        <==> ElementExcludedAfter(ex, pre, parts, 0) || AnyElementAfter(ex, pre + parts[0] + [SLASH], parts[1..])
  {
    var pre' := pre + parts[0] + [SLASH];
    if AnyElementAfter(ex, pre', parts[1..]) {
      var k :| 0 <= k < |parts[1..]| && ElementExcludedAfter(ex, pre', parts[1..], k);
      ElementExcludedShift(ex, pre, parts, k + 1);
      assert ElementExcludedAfter(ex, pre, parts, k + 1);
    }
    if AnyElementAfter(ex, pre, parts) {
      var k :| 0 <= k < |parts| && ElementExcludedAfter(ex, pre, parts, k);
      if k > 0 {
        ElementExcludedShift(ex, pre, parts, k);
        assert ElementExcludedAfter(ex, pre', parts[1..], k - 1);
      }
    }
  }

  /** It looks at every element of the path. */
  lemma {:induction false} WithinFromElements(ex: Decider, rel: Str, i: nat)
    requires i <= |rel|
    ensures WithinFrom(ex, rel, i) <==> AnyElementAfter(ex, rel[..i], SplitFrom(rel, i))
    decreases |rel| - i
  {
    var j := SlashFrom(rel, i);
    FirstElement(ex, rel, i);
    if j == |rel| {
      assert rel[..j] == rel && rel[i..j] == rel[i..];
      assert |SplitFrom(rel, i)| == 1;
    } else {
      AnyElementStep(ex, rel[..i], SplitFrom(rel, i));
      assert rel[..i] + rel[i..j] + [SLASH] == rel[..j + 1];
      assert SplitFrom(rel, i)[1..] == SplitFrom(rel, j + 1);
      WithinFromElements(ex, rel, j + 1);
    }
  }

  lemma WithinFromIsExcludedWithin(ex: Decider, rel: Str)
    ensures WithinFrom(ex, rel, 0) <==> ExcludedWithin(ex, rel, false)
  {
    WithinFromElements(ex, rel, 0);
    var parts := Split(rel);
    forall k | 0 <= k < |parts|
      ensures ElementExcludedAfter(ex, rel[..0], parts, k) <==> ElementExcluded(ex, parts, k, false)
    {
      assert rel[..0] + Join(parts[..k + 1]) == Join(parts[..k + 1]);
    }
    if ExcludedWithin(ex, rel, false) {
      var k :| 0 <= k < |parts| && ElementExcluded(ex, parts, k, false);
      assert ElementExcludedAfter(ex, rel[..0], parts, k);
    }
    if AnyElementAfter(ex, rel[..0], parts) {
      var k :| 0 <= k < |parts| && ElementExcludedAfter(ex, rel[..0], parts, k);
      assert ElementExcluded(ex, parts, k, false);
    }
  }

  /** sourceExcludes.excluded: the webhook receiver decides about every string as the scanner does. */
  method SourceExcludesExcluded(g: Glob, ps: seq<Pattern>, rel: Str) returns (r: bool)
    ensures r == ExcludedWithin(DeciderOf(g, ps), rel, false)
  {
    ghost var ex := DeciderOf(g, ps);
    WithinFromIsExcludedWithin(ex, rel);
    var i := 0;
    while true
      invariant 0 <= i <= |rel|
      invariant WithinFrom(ex, rel, 0) == WithinFrom(ex, rel, i)
      decreases |rel| - i
    {
      var j := SlashFrom(rel, i);
      if j == |rel| {
        r := SourceExcludesMatch(g, ps, rel, rel[i..], false);
        return;
      }
      r := SourceExcludesMatch(g, ps, rel[..j], rel[i..j], true);
      if r {
        return;
      }
      i := j + 1;
    }
  }

  /** add, one pattern of newSourceExcludes. */
  method AddExclude(g: Glob, raw: Str, fold: bool) returns (p: Pattern)
    ensures p == Parse(g, raw, fold)
  {
    var glob, dirOnly, anchored := raw, false, false;
    if glob != [] && glob[|glob| - 1] == SLASH {
      dirOnly, glob := true, TrimRight(glob);
    }
    if glob != [] && glob[0] == SLASH {
      anchored, glob := true, TrimLeft(glob);
    }
    if fold {
      glob := g.lower(glob);
    }
    p := Pattern(glob, fold, anchored, dirOnly);
  }

  method AddExcludes(g: Glob, raws: seq<Str>, fold: bool, before: seq<Pattern>) returns (ps: seq<Pattern>)
    ensures ps == before + ParseAll(g, raws, fold)
  {
    ps := before;
    ghost var all := ParseAll(g, raws, fold);
    for i := 0 to |raws|
      invariant ps == before + all[..i]
    {
      var p := AddExclude(g, raws[i], fold);
      ps := ps + [p];
    }
    assert all[..|raws|] == all;
  }

  /** newSourceExcludes: the default patterns, then the source's own. */
  method NewSourceExcludes(g: Glob, defaults: seq<Str>, own: seq<Str>) returns (ps: seq<Pattern>)
    ensures ps == Compile(g, defaults, own)
  {
    ps := AddExcludes(g, defaults, true, []);
    ps := AddExcludes(g, own, false, ps);
  }

  /** Whether a source with these patterns leaves the file at rel out. */
  predicate LeftOut(g: Glob, defaults: seq<Str>, own: seq<Str>, rel: Str) {
    ExcludedWithin(DeciderOf(g, Compile(g, defaults, own)), rel, false)
  }

  /** The catalog and the webhook receiver, each with its own parser, matcher and way through the path:
      they decide alike about every path and every list of patterns. */
  method DecideBoth(g: Glob, defaults: seq<Str>, own: seq<Str>, rel: Str) returns (catalog: bool, receiver: bool)
    ensures catalog == receiver == LeftOut(g, defaults, own, rel)
  {
    var ps := NewMatcher(g, defaults, own);
    catalog := MatcherExcludedWithin(g, ps, rel, false);
    var qs := NewSourceExcludes(g, defaults, own);
    receiver := SourceExcludesExcluded(g, qs, rel);
  }

  // ---- What a pattern's text says ----

  predicate AllSlashes(s: Str) {
    forall i :: 0 <= i < |s| ==> s[i] == SLASH
  }

  /** raw is core between slashes, and core neither begins nor ends with one. */
  predicate IsCore(raw: Str, lead: Str, core: Str, trail: Str) {
    && raw == lead + core + trail && AllSlashes(lead) && AllSlashes(trail)
    && (core != [] ==> core[0] != SLASH && core[|core| - 1] != SLASH)
    && (core == [] ==> lead == [])
  }

  /** The pattern raw, with these slashes around its core, leaves out the entry at rel with base name base: one with
      slashes behind is for folders only, one with slashes before (and a core) for the whole path only, and a
      folding one ignores case on both sides. */
  predicate TextHits(g: Glob, lead: Str, core: Str, trail: Str, fold: bool, rel: Str, base: Str, isDir: bool) {
    && (trail != [] ==> isDir)
    && (Matches(g, core, rel, fold) || (lead == [] && Matches(g, core, base, fold)))
  }

  predicate Matches(g: Glob, core: Str, name: Str, fold: bool) {
    if fold then g.matches(g.lower(core), g.lower(name)) else g.matches(core, name)
  }

  lemma {:induction false} TrimRightOf(s: Str, trail: Str)
    requires AllSlashes(trail) && (s != [] ==> s[|s| - 1] != SLASH)
    ensures TrimRight(s + trail) == s
  {
    if trail == [] {
      assert s + trail == s;
    } else {
      var n := |trail| - 1;
      assert (s + trail)[|s + trail| - 1] == trail[n];
      assert (s + trail)[..|s + trail| - 1] == s + trail[..n];
      TrimRightOf(s, trail[..n]);
    }
  }

  lemma {:induction false} TrimLeftOf(lead: Str, s: Str)
    requires AllSlashes(lead) && (s != [] ==> s[0] != SLASH)
    ensures TrimLeft(lead + s) == s
  {
    if lead == [] {
      assert lead + s == s;
    } else {
      assert (lead + s)[0] == lead[0] && (lead + s)[1..] == lead[1..] + s;
      TrimLeftOf(lead[1..], s);
    }
  }

  /** The slashes behind go, and say that it is for folders only. */
  lemma EndTrimmed(raw: Str, lead: Str, core: Str, trail: Str)
    requires IsCore(raw, lead, core, trail)
    ensures raw != [] && raw[|raw| - 1] == SLASH <==> trail != []
    ensures (if trail != [] then TrimRight(raw) else raw) == lead + core
  {
    var s := lead + core;
    if core != [] {
      assert s[|s| - 1] == core[|core| - 1];
    }
    if trail != [] {
      assert raw[|raw| - 1] == trail[|trail| - 1];
      TrimRightOf(s, trail);
    } else {
      assert raw == s;
    }
  }

  /** The slashes before go, and say that it is for the whole path. */
  lemma StartTrimmed(lead: Str, core: Str)
    requires AllSlashes(lead) && if core == [] then lead == [] else core[0] != SLASH
    ensures lead + core != [] && (lead + core)[0] == SLASH <==> lead != []
    ensures (if lead != [] then TrimLeft(lead + core) else lead + core) == core
  {
    if lead != [] {
      assert (lead + core)[0] == lead[0];
      TrimLeftOf(lead, core);
    } else {
      assert lead + core == core;
    }
  }

  /** What a pattern is parsed to. */
  lemma ParseIs(g: Glob, raw: Str, lead: Str, core: Str, trail: Str, fold: bool)
    requires IsCore(raw, lead, core, trail)
    ensures Parse(g, raw, fold) == Pattern(if fold then g.lower(core) else core, fold, lead != [], trail != [])
  {
    EndTrimmed(raw, lead, core, trail);
    StartTrimmed(lead, core);
  }

  /** A parsed pattern decides as its text says. */
  lemma HitsIsTextHits(g: Glob, raw: Str, lead: Str, core: Str, trail: Str, fold: bool, rel: Str, base: Str,
      isDir: bool)
    requires IsCore(raw, lead, core, trail)
    ensures Hits(g, Parse(g, raw, fold), rel, base, isDir) <==> TextHits(g, lead, core, trail, fold, rel, base, isDir)
  {
    ParseIs(g, raw, lead, core, trail, fold);
  }

  /** Every text has a core. */
  lemma {:induction false} HasCore(raw: Str) returns (lead: Str, core: Str, trail: Str)
    ensures IsCore(raw, lead, core, trail)
  {
    lead, core, trail := [], [], raw;
    if !AllSlashes(raw) {
      if raw[|raw| - 1] == SLASH {
        lead, core, trail := HasCore(raw[..|raw| - 1]);
        assert raw == lead + core + (trail + [SLASH]);
        trail := trail + [SLASH];
        CoreLeft(raw, lead, core, trail);
      } else if raw[0] == SLASH {
        lead, core, trail := HasCore(raw[1..]);
        assert raw == ([SLASH] + lead) + core + trail;
        lead := [SLASH] + lead;
        CoreLeft(raw, lead, core, trail);
      } else {
        lead, core, trail := [], raw, [];
        assert raw == [] + raw + [];
      }
    }
  }

  lemma CoreLeft(raw: Str, lead: Str, core: Str, trail: Str)
    requires raw == lead + core + trail && AllSlashes(lead) && AllSlashes(trail) && !AllSlashes(raw)
    ensures core != []
  {
    assert lead + [] + trail == lead + trail;
    assert AllSlashes(lead + trail);
  }

  /** A source leaves a file out if and only if a default pattern, case ignored, or one of its own says so about some
      element of the path, taken as the folder or file it is. */
  lemma LeftOutIff(g: Glob, defaults: seq<Str>, own: seq<Str>, rel: Str)
    ensures LeftOut(g, defaults, own, rel) <==>
      exists i :: 0 <= i < |Split(rel)| &&
        (SaysSo(g, defaults, true, Join(Split(rel)[..i + 1]), Split(rel)[i], i < |Split(rel)| - 1) ||
         SaysSo(g, own, false, Join(Split(rel)[..i + 1]), Split(rel)[i], i < |Split(rel)| - 1))
  {
    var ps := Compile(g, defaults, own);
    forall path, base, isDir
      ensures Excluded(g, ps, path, base, isDir) <==>
        SaysSo(g, defaults, true, path, base, isDir) || SaysSo(g, own, false, path, base, isDir)
    {
      CompiledSaysSo(g, defaults, own, path, base, isDir);
    }
    forall i | 0 <= i < |Split(rel)|
      ensures ElementExcluded(DeciderOf(g, ps), Split(rel), i, false) <==>
        SaysSo(g, defaults, true, Join(Split(rel)[..i + 1]), Split(rel)[i], i < |Split(rel)| - 1) ||
        SaysSo(g, own, false, Join(Split(rel)[..i + 1]), Split(rel)[i], i < |Split(rel)| - 1)
    {
    }
  }

  /** One of the texts says so. */
  ghost predicate SaysSo(g: Glob, raws: seq<Str>, fold: bool, rel: Str, base: Str, isDir: bool) {
    exists raw, lead, core, trail ::
      raw in raws && IsCore(raw, lead, core, trail) && TextHits(g, lead, core, trail, fold, rel, base, isDir)
  }

  lemma ParsedSaysSo(g: Glob, raws: seq<Str>, fold: bool, rel: Str, base: Str, isDir: bool)
    ensures Excluded(g, ParseAll(g, raws, fold), rel, base, isDir) <==> SaysSo(g, raws, fold, rel, base, isDir)
  {
    var ps := ParseAll(g, raws, fold);
    if Excluded(g, ps, rel, base, isDir) {
      var i :| 0 <= i < |ps| && Hits(g, ps[i], rel, base, isDir);
      var lead, core, trail := HasCore(raws[i]);
      HitsIsTextHits(g, raws[i], lead, core, trail, fold, rel, base, isDir);
      assert raws[i] in raws;
    }
    if SaysSo(g, raws, fold, rel, base, isDir) {
      var raw, lead, core, trail :|
        raw in raws && IsCore(raw, lead, core, trail) && TextHits(g, lead, core, trail, fold, rel, base, isDir);
      var i :| 0 <= i < |raws| && raws[i] == raw;
      HitsIsTextHits(g, raw, lead, core, trail, fold, rel, base, isDir);
      assert ps[i] in ps;
    }
  }

  lemma CompiledSaysSo(g: Glob, defaults: seq<Str>, own: seq<Str>, rel: Str, base: Str, isDir: bool)
    ensures Excluded(g, Compile(g, defaults, own), rel, base, isDir) <==>
      SaysSo(g, defaults, true, rel, base, isDir) || SaysSo(g, own, false, rel, base, isDir)
  {
    ParsedSaysSo(g, defaults, true, rel, base, isDir);
    ParsedSaysSo(g, own, false, rel, base, isDir);
    var a, b := ParseAll(g, defaults, true), ParseAll(g, own, false);
    assert forall p :: p in a + b <==> p in a || p in b;
  }
}
