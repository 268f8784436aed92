/**
 The object scanner, which restarts a nested scan at every brace, against one lexer that reads the whole text once.
 */
module TsLexerProperties {
  import opened Wrappers
  import opened TsLexer

  // ----- one lexer over the whole text -----

  /** The mode in which a single pass from the start of the text meets position `n`;
      `None` for the second character of a comment opener or closer. */
  function ModeAt(text: string, n: nat): Option<Mode>
    requires n <= |text|
  {
    if n == 0 then Some(Code)
    else if ModeAt(text, n - 1).Some? && Width(text, n - 1, ModeAt(text, n - 1).value) == 1 then
      Some(ModeAfter(text, n - 1, ModeAt(text, n - 1).value))
    else if n >= 2 && ModeAt(text, n - 2).Some? && Width(text, n - 2, ModeAt(text, n - 2).value) == 2 then
      Some(ModeAfter(text, n - 2, ModeAt(text, n - 2).value))
    else None
  }

  /** `+1` for an opening brace in code, `-1` for a closing one, `0` for everything else. */
  function Weight(text: string, p: nat): int
    requires p < |text|
  {
    if ModeAt(text, p) != Some(Code) then 0
    else if text[p] == '{' then 1
    else if text[p] == '}' then -1
    else 0
  }

  /** Braces opened minus braces closed in code between `a` and `b`. */
  function Balance(text: string, a: nat, b: nat): int
    requires b <= |text|
    decreases b
  {
    if b <= a then 0 else Balance(text, a, b - 1) + Weight(text, b - 1)
  }

  /** `a..e` runs from an opening brace in code to the brace that closes it. */
  predicate Region(text: string, a: nat, e: nat) {
    && a < e <= |text| && Weight(text, a) == 1
    && Balance(text, a, e) == 0
    && (forall k: nat :: a < k < e ==> Balance(text, a, k) > 0)
  }

  ghost predicate Closes(text: string, a: nat) {
    exists e: nat :: Region(text, a, e)
  }

  /** A region that lies in no other region. */
  ghost predicate Outermost(text: string, a: nat, e: nat) {
    && Region(text, a, e)
    && (forall a2: nat, e2: nat :: Region(text, a2, e2) && a2 <= a && e <= e2 ==> a2 == a && e2 == e)
  }

  // ----- moving along the text -----

  lemma NextMode(text: string, i: nat, mode: Mode)
    requires i < |text| && ModeAt(text, i) == Some(mode)
    ensures ModeAt(text, i + Width(text, i, mode)) == Some(ModeAfter(text, i, mode))
    ensures Width(text, i, mode) == 2 ==> ModeAt(text, i + 1) == None
  {
    if Width(text, i, mode) == 2 && i > 0 && ModeAt(text, i - 1).Some? {
      assert Width(text, i - 1, ModeAt(text, i - 1).value) == 1;
    }
  }

  /** Skipping a position that is not a brace in code leaves every balance unchanged. */
  lemma SkipKeepsBalance(text: string, a: nat, i: nat, mode: Mode)
    requires a <= i < |text| && ModeAt(text, i) == Some(mode)
    requires !(mode == Code && (text[i] == '{' || text[i] == '}'))
    ensures var next := i + Width(text, i, mode);
            forall k: nat :: i < k <= next ==> Balance(text, a, k) == Balance(text, a, i)
  {
    NextMode(text, i, mode);
    assert Balance(text, a, i + 1) == Balance(text, a, i);
    if Width(text, i, mode) == 2 {
      assert Balance(text, a, i + 2) == Balance(text, a, i + 1);
    }
  }

  ghost predicate PositiveUpTo(text: string, a: nat, i: nat)
    requires i <= |text|
  {
    forall k: nat :: a < k <= i ==> Balance(text, a, k) > 0
  }

  lemma PositiveGrows(text: string, a: nat, i: nat, next: nat)
    requires a < i < next <= |text| && PositiveUpTo(text, a, i)
    requires forall k: nat :: i < k <= next ==> Balance(text, a, k) > 0
    ensures PositiveUpTo(text, a, next)
  {}

  lemma SkipKeepsPositive(text: string, a: nat, i: nat, mode: Mode)
    requires a < i < |text| && ModeAt(text, i) == Some(mode) && PositiveUpTo(text, a, i)
    requires !(mode == Code && (text[i] == '{' || text[i] == '}'))
    ensures var next := i + Width(text, i, mode);
            PositiveUpTo(text, a, next) && Balance(text, a, next) == Balance(text, a, i)
  {
    SkipKeepsBalance(text, a, i, mode);
    PositiveGrows(text, a, i, i + Width(text, i, mode));
  }

  lemma RegionEnds(text: string, a: nat, i: nat)
    requires a < i < |text| && Weight(text, a) == 1 && PositiveUpTo(text, a, i)
    requires Balance(text, a, i) == 1 && Weight(text, i) == -1
    ensures Region(text, a, i + 1)
  {
    assert Balance(text, a, i + 1) == 0;
  }

  lemma BraceKeepsPositive(text: string, a: nat, i: nat)
    requires a < i < |text| && PositiveUpTo(text, a, i) && Balance(text, a, i) + Weight(text, i) > 0
    ensures PositiveUpTo(text, a, i + 1) && Balance(text, a, i + 1) == Balance(text, a, i) + Weight(text, i)
  {
    PositiveGrows(text, a, i, i + 1);
  }

  /** `end` is the end of the region that starts at `a`, or there is no such region. */
  ghost predicate IsRegionEnd(text: string, a: nat, end: Option<nat>) {
    match end
    case Some(e) => Region(text, a, e) && ModeAt(text, e) == Some(Code)
    case None => PositiveUpTo(text, a, |text|)
  }

  /** What one step of the nested scan does at a brace in code. */
  lemma BraceStep(text: string, i: nat, depth: int)
    requires i < |text| && (text[i] == '{' || text[i] == '}')
    ensures CloseFrom(text, i, Code, depth, '{', '}') ==
            if text[i] == '}' && depth == 1 then Some(i + 1)
            else CloseFrom(text, i + 1, Code, if text[i] == '{' then depth + 1 else depth - 1, '{', '}')
  {}

  lemma OtherStep(text: string, i: nat, mode: Mode, depth: int)
    requires i < |text| && !(mode == Code && (text[i] == '{' || text[i] == '}'))
    ensures CloseFrom(text, i, mode, depth, '{', '}') ==
            CloseFrom(text, i + Width(text, i, mode), ModeAfter(text, i, mode), depth, '{', '}')
  {}

  /** A nested scan begun at `a` finds exactly the end of the region that starts there. */
  lemma {:induction false} ScanFindsRegion(text: string, a: nat, i: nat, mode: Mode)
    requires a < i <= |text| && Weight(text, a) == 1 && ModeAt(text, i) == Some(mode) && PositiveUpTo(text, a, i)
    ensures IsRegionEnd(text, a, CloseFrom(text, i, mode, Balance(text, a, i), '{', '}'))
    decreases |text| - i
  {
    if i < |text| {
      NextMode(text, i, mode);
      if mode == Code && (text[i] == '{' || text[i] == '}') {
        BraceStep(text, i, Balance(text, a, i));
        if text[i] == '}' && Balance(text, a, i) == 1 {
          RegionEnds(text, a, i);
        } else {
          BraceKeepsPositive(text, a, i);
          ScanFindsRegion(text, a, i + 1, Code);
        }
      } else {
        OtherStep(text, i, mode, Balance(text, a, i));
        SkipKeepsPositive(text, a, i, mode);
        ScanFindsRegion(text, a, i + Width(text, i, mode), ModeAfter(text, i, mode));
      }
    }
  }

  lemma RegionStarts(text: string, a: nat)
    requires a < |text| && Weight(text, a) == 1
    ensures match CloseFrom(text, a, Code, 0, '{', '}')
            case Some(e) => Region(text, a, e) && ModeAt(text, e) == Some(Code)
            case None => !Closes(text, a)
  {
    NextMode(text, a, Code);
    assert Balance(text, a, a + 1) == 1;
    ScanFindsRegion(text, a, a + 1, Code);
  }

  // ----- nesting -----

  lemma {:induction false} BalanceSplits(text: string, a: nat, b: nat, c: nat)
    requires a <= b <= c <= |text|
    ensures Balance(text, a, c) == Balance(text, a, b) + Balance(text, b, c)
    decreases c
  {
    if b < c {
      BalanceSplits(text, a, b, c - 1);
    }
  }

  /** Balances move by one, so the brace opened at `p` inside a region is closed inside it. */
  lemma {:induction false} InnerClose(text: string, a: nat, e: nat, p: nat, k: nat) returns (inner: nat)
    requires Region(text, a, e) && a <= p < k <= e && Weight(text, p) == 1 && PositiveUpTo(text, p, k)
    ensures inner <= e && Region(text, p, inner)
    decreases e - k
  {
    BalanceSplits(text, a, p, k);
    assert p > a ==> Balance(text, a, p) > 0;
    assert Balance(text, p, k) > 0;
    assert k < e;
    assert Balance(text, p, k + 1) == Balance(text, p, k) + Weight(text, k);
    if Balance(text, p, k + 1) == 0 {
      inner := k + 1;
    } else {
      inner := InnerClose(text, a, e, p, k + 1);
    }
  }

  lemma RegionEndIsUnique(text: string, a: nat, e: nat, f: nat)
    requires Region(text, a, e) && Region(text, a, f)
    ensures e == f
  {}

  /** Regions nest: one that starts inside another ends inside it. */
  lemma RegionsNest(text: string, a: nat, e: nat, p: nat)
    requires Region(text, a, e) && a <= p < e && Weight(text, p) == 1
    ensures Closes(text, p)
    ensures forall f: nat :: Region(text, p, f) ==> f <= e
  {
    assert Balance(text, p, p + 1) == 1;
    var inner := InnerClose(text, a, e, p, p + 1);
    forall f: nat | Region(text, p, f) ensures f <= e {
      RegionEndIsUnique(text, p, inner, f);
    }
  }

  // ----- the list the scanner returns -----

  /** In order, disjoint, none before `from`, and all of them regions. */
  ghost predicate InOrder(text: string, regions: seq<(nat, nat)>, from: nat) {
    && (forall k :: 0 <= k < |regions| ==> from <= regions[k].0 && Region(text, regions[k].0, regions[k].1))
    && (forall j, k :: 0 <= j < k < |regions| ==> regions[j].1 <= regions[k].0)
  }

  ghost predicate Covered(regions: seq<(nat, nat)>, p: nat) {
    exists k :: 0 <= k < |regions| && regions[k].0 <= p < regions[k].1
  }

  ghost predicate CoversFrom(text: string, regions: seq<(nat, nat)>, from: nat) {
    forall p: nat :: from <= p < |text| && Weight(text, p) == 1 ==> Covered(regions, p)
  }

  ghost predicate SomeUnclosed(text: string) {
    exists p: nat :: p < |text| && Weight(text, p) == 1 && !Closes(text, p)
  }

  lemma CoverGrows(text: string, region: (nat, nat), rest: seq<(nat, nat)>)
    requires CoversFrom(text, rest, region.1)
    ensures CoversFrom(text, [region] + rest, region.0)
  {
    var all := [region] + rest;
    forall p: nat | region.0 <= p < |text| && Weight(text, p) == 1 ensures Covered(all, p) {
      if p < region.1 {
        assert all[0].0 <= p < all[0].1;
      } else {
        assert Covered(rest, p);
        var k :| 0 <= k < |rest| && rest[k].0 <= p < rest[k].1;
        assert all[k + 1] == rest[k];
      }
    }
  }

  lemma SkipKeepsList(text: string, regions: seq<(nat, nat)>, i: nat, mode: Mode)
    requires i < |text| && ModeAt(text, i) == Some(mode) && !(mode == Code && text[i] == '{')
    requires var next := i + Width(text, i, mode); InOrder(text, regions, next) && CoversFrom(text, regions, next)
    ensures InOrder(text, regions, i) && CoversFrom(text, regions, i)
  {
    NextMode(text, i, mode);
  }

  lemma ConsInOrder(text: string, region: (nat, nat), rest: seq<(nat, nat)>)
    requires Region(text, region.0, region.1) && InOrder(text, rest, region.1)
    ensures InOrder(text, [region] + rest, region.0)
  {}

  /** A report from `from` on: regions that cover every opened brace, or an error because some brace is not closed. */
  ghost predicate Reports(text: string, from: nat, report: Result<seq<(nat, nat)>, LexError>) {
    if report.Ok? then InOrder(text, report.value, from) && CoversFrom(text, report.value, from) else SomeUnclosed(text)
  }

  lemma {:induction false} ScannerTracksLexer(text: string, i: nat, mode: Mode)
    requires i <= |text| && ModeAt(text, i) == Some(mode)
    ensures Reports(text, i, ObjectsFrom(text, i, mode))
    decreases |text| - i
  {
    if i < |text| {
      if Plain(text, i, mode) && text[i] == '{' {
        RegionStarts(text, i);
        var close := CloseFrom(text, i, Code, 0, '{', '}');
        if close.Some? {
          ScannerTracksLexer(text, close.value, Code);
          if ObjectsFrom(text, close.value, Code).Ok? {
            ConsInOrder(text, (i, close.value), ObjectsFrom(text, close.value, Code).value);
            CoverGrows(text, (i, close.value), ObjectsFrom(text, close.value, Code).value);
          }
        }
      } else {
        NextMode(text, i, mode);
        var next := i + Width(text, i, mode);
        ScannerTracksLexer(text, next, ModeAfter(text, i, mode));
        if ObjectsFrom(text, next, ModeAfter(text, i, mode)).Ok? {
          SkipKeepsList(text, ObjectsFrom(text, next, ModeAfter(text, i, mode)).value, i, mode);
        }
      }
    }
  }

  /** In order and disjoint, and exactly the outermost regions of the whole text. */
  ghost predicate ListsOutermost(text: string, regions: seq<(nat, nat)>) {
    InOrder(text, regions, 0) && forall a: nat, e: nat :: (a, e) in regions <==> Outermost(text, a, e)
  }

  /** The scanner succeeds exactly when every brace opened in code is closed, and then it returns exactly the
      outermost regions of the whole-text lexer, in order and disjoint. */
  lemma ScannerFindsOutermostRegions(text: string)
    ensures ObjectsFrom(text, 0, Code).Ok? <==> !SomeUnclosed(text)
    ensures ObjectsFrom(text, 0, Code).Ok? ==> ListsOutermost(text, ObjectsFrom(text, 0, Code).value)
  {
    ScannerTracksLexer(text, 0, Code);
    if ObjectsFrom(text, 0, Code).Ok? {
      var regions := ObjectsFrom(text, 0, Code).value;
      forall p: nat | p < |text| && Weight(text, p) == 1 ensures Closes(text, p) {
        var k := InsideOne(text, regions, p);
      }
      forall a: nat, e: nat ensures (a, e) in regions <==> Outermost(text, a, e) {
        if (a, e) in regions {
          ListedIsOutermost(text, regions, a, e);
        }
        if Outermost(text, a, e) {
          var k := InsideOne(text, regions, a);
          assert regions[k] == (a, e);
        }
      }
    }
  }

  lemma InsideOne(text: string, regions: seq<(nat, nat)>, p: nat) returns (k: nat)
    requires InOrder(text, regions, 0) && CoversFrom(text, regions, 0) && p < |text| && Weight(text, p) == 1
    ensures k < |regions| && regions[k].0 <= p < regions[k].1 && Region(text, regions[k].0, regions[k].1)
    ensures Closes(text, p)
    ensures forall f: nat :: Region(text, p, f) ==> f <= regions[k].1
  {
    assert Covered(regions, p);
    k :| 0 <= k < |regions| && regions[k].0 <= p < regions[k].1;
    RegionsNest(text, regions[k].0, regions[k].1, p);
  }

  lemma ListedIsOutermost(text: string, regions: seq<(nat, nat)>, a: nat, e: nat)
    requires InOrder(text, regions, 0) && CoversFrom(text, regions, 0) && (a, e) in regions
    ensures Outermost(text, a, e)
  {
    var j :| 0 <= j < |regions| && regions[j] == (a, e);
    forall a2: nat, e2: nat | Region(text, a2, e2) && a2 <= a && e <= e2 ensures a2 == a && e2 == e {
      var k := InsideOne(text, regions, a2);
      assert regions[k].0 <= a2 && e2 <= regions[k].1;
      assert j == k;
      RegionEndIsUnique(text, a, e, e2);
    }
  }

  // ----- what the lexer reads as one token -----

  /** The character at `k` is escaped in a string opened at `i`: the backslash before it is not escaped itself. */
  ghost predicate Escaped(text: string, i: nat, k: nat)
    requires k <= |text|
  {
    i + 1 < k && text[k - 1] == '\\' && !Escaped(text, i, k - 1)
  }

  ghost predicate ClosesString(text: string, i: nat, k: nat) {
    i < k < |text| && text[k] == text[i] && !Escaped(text, i, k)
  }

  ghost predicate ClosesLine(text: string, i: nat, k: nat) {
    i + 2 <= k < |text| && text[k] == '\n'
  }

  ghost predicate ClosesBlock(text: string, i: nat, k: nat) {
    i + 2 <= k && k + 1 < |text| && text[k] == '*' && text[k + 1] == '/'
  }

  /** The token that starts at `i` in code ends at `end`: a string, a comment, or one character. */
  ghost predicate TokenEnds(text: string, i: nat, end: nat)
    requires i < |text|
  {
    if text[i] == '"' || text[i] == '\'' || text[i] == '`' then
      end > i && ClosesString(text, i, end - 1) && forall k :: i < k < end - 1 ==> !ClosesString(text, i, k)
    else if text[i] == '/' && i + 1 < |text| && text[i + 1] == '/' then
      end > i && ClosesLine(text, i, end - 1) && forall k :: i < k < end - 1 ==> !ClosesLine(text, i, k)
    else if text[i] == '/' && i + 1 < |text| && text[i + 1] == '*' then
      end > i + 1 && ClosesBlock(text, i, end - 2) && forall k :: i < k < end - 2 ==> !ClosesBlock(text, i, k)
    else end == i + 1
  }

  /** No code between `i` and `j`. */
  ghost predicate Silent(text: string, i: nat, j: nat) {
    forall k :: i < k < j && k <= |text| ==> ModeAt(text, k) != Some(Code)
  }

  lemma {:induction false} StringModes(text: string, i: nat, k: nat)
    requires i < k <= |text| && ModeAt(text, i) == Some(Code)
    requires text[i] == '"' || text[i] == '\'' || text[i] == '`'
    requires forall m :: i < m < k ==> !ClosesString(text, i, m)
    ensures ModeAt(text, k) == Some(Quoted(text[i], Escaped(text, i, k)))
  {
    if k == i + 1 {
      NextMode(text, i, Code);
    } else {
      StringModes(text, i, k - 1);
      assert !ClosesString(text, i, k - 1);
      NextMode(text, k - 1, ModeAt(text, k - 1).value);
    }
  }

  lemma {:induction false} LineModes(text: string, i: nat, k: nat)
    requires i < k <= |text| && ModeAt(text, i) == Some(Code) && i + 1 < |text| && text[i] == text[i + 1] == '/'
    requires forall m :: i < m < k ==> !ClosesLine(text, i, m)
    ensures ModeAt(text, k) == if k == i + 1 then None else Some(LineComment)
  {
    if k <= i + 2 {
      NextMode(text, i, Code);
    } else {
      LineModes(text, i, k - 1);
      assert !ClosesLine(text, i, k - 1);
      NextMode(text, k - 1, LineComment);
    }
  }

  lemma {:induction false} BlockModes(text: string, i: nat, k: nat)
    requires i < k <= |text| && ModeAt(text, i) == Some(Code) && i + 1 < |text| && text[i] == '/' && text[i + 1] == '*'
    requires forall m :: i < m < k ==> !ClosesBlock(text, i, m)
    ensures ModeAt(text, k) == if k == i + 1 then None else Some(BlockComment)
  {
    if k <= i + 2 {
      NextMode(text, i, Code);
    } else {
      BlockModes(text, i, k - 1);
      assert !ClosesBlock(text, i, k - 1);
      NextMode(text, k - 1, BlockComment);
    }
  }

  lemma StringToken(text: string, i: nat, end: nat)
    requires i < |text| && ModeAt(text, i) == Some(Code) && (text[i] == '"' || text[i] == '\'' || text[i] == '`')
    requires i < end <= |text| + 1 && forall k :: i < k < end - 1 ==> !ClosesString(text, i, k)
    ensures Silent(text, i, end)
    ensures end <= |text| && ClosesString(text, i, end - 1) ==> ModeAt(text, end) == Some(Code)
  {
    forall k | i < k < end && k <= |text| ensures ModeAt(text, k) != Some(Code) { StringModes(text, i, k); }
    if end <= |text| && ClosesString(text, i, end - 1) {
      StringModes(text, i, end - 1);
      NextMode(text, end - 1, Quoted(text[i], false));
    }
  }

  lemma LineToken(text: string, i: nat, end: nat)
    requires i + 1 < |text| && ModeAt(text, i) == Some(Code) && text[i] == text[i + 1] == '/'
    requires i < end <= |text| + 1 && forall k :: i < k < end - 1 ==> !ClosesLine(text, i, k)
    ensures Silent(text, i, end)
    ensures end <= |text| && ClosesLine(text, i, end - 1) ==> ModeAt(text, end) == Some(Code)
  {
    forall k | i < k < end && k <= |text| ensures ModeAt(text, k) != Some(Code) { LineModes(text, i, k); }
    if end <= |text| && ClosesLine(text, i, end - 1) {
      LineModes(text, i, end - 1);
      NextMode(text, end - 1, LineComment);
    }
  }

  lemma BlockToken(text: string, i: nat, last: nat)
    requires i + 1 < |text| && ModeAt(text, i) == Some(Code) && text[i] == '/' && text[i + 1] == '*'
    requires i < last <= |text| + 1 && forall k :: i < k < last ==> !ClosesBlock(text, i, k)
    ensures Silent(text, i, last)
    ensures ClosesBlock(text, i, last) ==> Silent(text, i, last + 2) && ModeAt(text, last + 2) == Some(Code)
  {
    forall k | i < k <= last && k <= |text| ensures ModeAt(text, k) != Some(Code) { BlockModes(text, i, k); }
    if ClosesBlock(text, i, last) {
      BlockModes(text, i, last);
      NextMode(text, last, BlockComment);
    }
  }

  lemma TokenIsRead(text: string, i: nat, end: nat)
    requires i < |text| && ModeAt(text, i) == Some(Code) && TokenEnds(text, i, end)
    ensures end <= |text| && ModeAt(text, end) == Some(Code) && Silent(text, i, end)
  {
    if text[i] == '"' || text[i] == '\'' || text[i] == '`' {
      StringToken(text, i, end);
    } else if text[i] == '/' && i + 1 < |text| && text[i + 1] == '/' {
      LineToken(text, i, end);
    } else if text[i] == '/' && i + 1 < |text| && text[i + 1] == '*' {
      BlockToken(text, i, end - 2);
    } else {
      NextMode(text, i, Code);
    }
  }

  /** If no first position closes, none does. */
  lemma {:induction false} NoneCloses(closes: nat -> bool, from: nat, k: nat)
    requires forall end: nat :: from <= end && closes(end) ==> EarlierCloses(closes, from, end)
    requires from <= k
    ensures !closes(k)
    decreases k
  {
    if closes(k) {
      assert EarlierCloses(closes, from, k);
      var m: nat :| from <= m < k && closes(m);
      NoneCloses(closes, from, m);
    }
  }

  ghost predicate EarlierCloses(closes: nat -> bool, from: nat, end: nat) {
    exists m: nat :: from <= m < end && closes(m)
  }

  /** A string or a comment starts here. */
  ghost predicate LongToken(text: string, i: nat)
    requires i < |text|
  {
    text[i] == '"' || text[i] == '\'' || text[i] == '`' ||
    (text[i] == '/' && i + 1 < |text| && (text[i + 1] == '/' || text[i + 1] == '*'))
  }

  lemma NoTokenEnd(text: string, i: nat)
    requires i < |text| && ModeAt(text, i) == Some(Code) && LongToken(text, i)
    requires forall end: nat :: !TokenEnds(text, i, end)
    ensures Silent(text, i, |text| + 1)
  {
    if text[i] == '"' || text[i] == '\'' || text[i] == '`' {
      var closes := (k: nat) => ClosesString(text, i, k);
      forall end: nat | i + 1 <= end && closes(end) ensures EarlierCloses(closes, i + 1, end) {
        assert !TokenEnds(text, i, end + 1);
        var m :| i < m < end && ClosesString(text, i, m);
        assert closes(m);
      }
      forall k: nat | i + 1 <= k ensures !ClosesString(text, i, k) {
        NoneCloses(closes, i + 1, k);
      }
      StringToken(text, i, |text| + 1);
    } else if text[i] == '/' && i + 1 < |text| && text[i + 1] == '/' {
      var closes := (k: nat) => ClosesLine(text, i, k);
      forall end: nat | i + 1 <= end && closes(end) ensures EarlierCloses(closes, i + 1, end) {
        assert !TokenEnds(text, i, end + 1);
        var m :| i < m < end && ClosesLine(text, i, m);
        assert closes(m);
      }
      forall k: nat | i + 1 <= k ensures !ClosesLine(text, i, k) {
        NoneCloses(closes, i + 1, k);
      }
      LineToken(text, i, |text| + 1);
    } else {
      var closes := (k: nat) => ClosesBlock(text, i, k);
      forall end: nat | i + 1 <= end && closes(end) ensures EarlierCloses(closes, i + 1, end) {
        assert !TokenEnds(text, i, end + 2);
        var m :| i < m < end && ClosesBlock(text, i, m);
        assert closes(m);
      }
      forall k: nat | i + 1 <= k ensures !ClosesBlock(text, i, k) {
        NoneCloses(closes, i + 1, k);
      }
      BlockToken(text, i, |text| + 1);
    }
  }

  /**
   The rules of the lexer: from a position in code on, strings in any of the three quotes, line comments and block
   comments are skipped to their first end, nothing inside them is code, and any other character is one token.
   */
  lemma LexerFollowsTokens(text: string, i: nat)
    requires i < |text| && ModeAt(text, i) == Some(Code)
    ensures forall end: nat :: TokenEnds(text, i, end) ==>
      end <= |text| && ModeAt(text, end) == Some(Code) && Silent(text, i, end)
    ensures (forall end: nat :: !TokenEnds(text, i, end)) ==> Silent(text, i, |text| + 1)
  {
    forall end: nat | TokenEnds(text, i, end)
      ensures end <= |text| && ModeAt(text, end) == Some(Code) && Silent(text, i, end)
    {
      TokenIsRead(text, i, end);
    }
    if !LongToken(text, i) {
      assert TokenEnds(text, i, i + 1);
    } else if forall end: nat :: !TokenEnds(text, i, end) {
      NoTokenEnd(text, i);
    }
  }

  // ----- one balanced literal -----

  /**
   From a position in code the balanced-literal scanner returns the region that starts there, or says that no brace
   starts there, or that the brace is never closed.
   */
  lemma BalancedIsRegion(text: string, a: nat)
    requires a < |text| && ModeAt(text, a) == Some(Code)
    ensures Balanced(text, a, '{', '}') == Err(StartInvalid) <==> text[a] != '{'
    ensures forall e: nat :: Region(text, a, e) ==> Balanced(text, a, '{', '}') == Ok(text[a..e])
    ensures text[a] == '{' && !Closes(text, a) ==> Balanced(text, a, '{', '}') == Err(Unterminated)
  {
    if text[a] == '{' {
      RegionStarts(text, a);
      forall e: nat | Region(text, a, e) ensures Balanced(text, a, '{', '}') == Ok(text[a..e]) {
        assert Closes(text, a);
        RegionEndIsUnique(text, a, e, CloseFrom(text, a, Code, 0, '{', '}').value);
      }
    } else {
      assert Weight(text, a) != 1;
    }
  }
}
