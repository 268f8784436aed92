/**
 Repository paths as the builder manager compares them
 (scripts/fanmind_next_best_action.py, `_canonical_repository_path` and `_path_overlap`).

 The reference meaning of a path is the directory it leads to when it is walked from some
 working directory; normalisation and string comparison are proved against that meaning.
 */
module RepositoryPaths {
  import opened Wrappers

  // ----- splitting and joining on '/' -----

  /** Python's `value.split("/")`. */
  function Split(value: string): (parts: seq<string>)
    ensures |parts| >= 1
    ensures forall part <- parts :: '/' !in part
  {
    if value == [] then [[]]
    else
      var rest := Split(value[1..]);
      if value[0] == '/' then [[]] + rest
      else [[value[0]] + rest[0]] + rest[1..]
  }

  /** Python's `"/".join(parts)`. */
  function Join(parts: seq<string>): string {
    if |parts| == 0 then []
    else if |parts| == 1 then parts[0]
    else parts[0] + ['/'] + Join(parts[1..])
  }

  lemma {:induction false} SplitPrepend(part: string, rest: string)
    requires '/' !in part
    ensures Split(part + ['/'] + rest) == [part] + Split(rest)
    ensures Split(part) == [part]
  {
    if part == [] {
      assert [] + ['/'] + rest == ['/'] + rest;
      assert Split(['/'] + rest) == [[]] + Split(rest);
    } else {
      var whole := part + ['/'] + rest;
      assert whole[1..] == part[1..] + ['/'] + rest;
      SplitPrepend(part[1..], rest);
      assert part == [part[0]] + part[1..];
      assert part[0] in part;
    }
  }

  /** Joining and splitting are inverse on non-empty lists of slash-free segments. */
  lemma {:induction false} SplitOfJoin(parts: seq<string>)
    requires |parts| >= 1
    requires forall part <- parts :: '/' !in part
    ensures Split(Join(parts)) == parts
  {
    assert parts[0] in parts;
    if |parts| == 1 {
      SplitPrepend(parts[0], []);
      assert parts == [parts[0]];
    } else {
      SplitPrepend(parts[0], Join(parts[1..]));
      SplitOfJoin(parts[1..]);
      assert parts == [parts[0]] + parts[1..];
    }
  }

  lemma {:induction false} JoinOfSplit(value: string)
    ensures Join(Split(value)) == value
  {
    if value != [] {
      JoinOfSplit(value[1..]);
      var rest := Split(value[1..]);
      assert value == [value[0]] + value[1..];
      if value[0] == '/' {
        assert ([[]] + rest)[1..] == rest;
        assert [] + ['/'] + Join(rest) == value;
      } else if |rest| > 1 {
        var parts := [[value[0]] + rest[0]] + rest[1..];
        assert parts[1..] == rest[1..];
        assert Join(parts) == [value[0]] + Join(rest);
      } else {
        assert Join(rest) == rest[0];
      }
    }
  }

  // ----- what a path means -----

  /** An ordinary directory or file name: neither empty nor one of the two navigation names. */
  predicate IsName(part: string) {
    part != "" && part != "." && part != ".." && '/' !in part
  }

  /** The place reached by walking the segments from `cwd`; ".." at the file-system root stays there. */
  function Walk(cwd: seq<string>, parts: seq<string>): seq<string>
    decreases |parts|
  {
    if parts == [] then cwd
    else if parts[0] == "" || parts[0] == "." then Walk(cwd, parts[1..])
    else if parts[0] == ".." then Walk(if cwd == [] then [] else cwd[..|cwd| - 1], parts[1..])
    else Walk(cwd + [parts[0]], parts[1..])
  }

  /** How far below (or, when negative, above) its starting point a walk ends. */
  function Height(parts: seq<string>): int {
    if parts == [] then 0
    else
      var last := parts[|parts| - 1];
      Height(parts[..|parts| - 1]) +
      (if last == "" || last == "." then 0 else if last == ".." then -1 else 1)
  }

  /** The walk leaves the directory it started in at some moment. */
  ghost predicate Climbs(parts: seq<string>) {
    exists k :: 0 <= k <= |parts| && Height(parts[..k]) < 0
  }

  // ----- normalisation -----

  /** The component loop of Python's `posixpath.normpath` on a path without a leading slash. */
  function NormalSegments(parts: seq<string>, kept: seq<string>): seq<string>
    decreases |parts|
  {
    if parts == [] then kept
    else if parts[0] == "" || parts[0] == "." then NormalSegments(parts[1..], kept)
    else if parts[0] != ".." || kept == [] || kept[|kept| - 1] == ".." then
      NormalSegments(parts[1..], kept + [parts[0]])
    else NormalSegments(parts[1..], kept[..|kept| - 1])
  }

  function NormPath(value: string): string {
    var joined := Join(NormalSegments(Split(value), []));
    if joined == "" then "." else joined
  }

  predicate IsAsciiLetter(c: char) {
    'a' <= c <= 'z' || 'A' <= c <= 'Z'
  }

  predicate HasDrivePrefix(value: string) {
    |value| >= 2 && IsAsciiLetter(value[0]) && value[1] == ':'
  }

  /** The spellings that are refused before any normalisation. */
  predicate Refused(value: string) {
    value == "" || '\0' in value || '\\' in value || value[0] == '/' || HasDrivePrefix(value)
  }

  function StripTrailingSlashes(value: string): string {
    if value != "" && value[|value| - 1] == '/' then StripTrailingSlashes(value[..|value| - 1]) else value
  }

  function Canonical(value: string): Option<string> {
    if Refused(value) then None
    else
      var normalized := NormPath(value);
      if normalized == ".." || "../" <= normalized then None
      else
        var stripped := StripTrailingSlashes(normalized);
        Some(if stripped == "" then "." else stripped)
  }

  /** The segments of a canonical path; the root "." has none. */
  function Segments(canonical: string): seq<string> {
    if canonical == "." then [] else Split(canonical)
  }

  function PathOverlap(left: string, right: string): bool {
    var a, b := Canonical(left), Canonical(right);
    a.None? || b.None? ||
    a.value == "." || b.value == "." ||
    a.value == b.value || b.value + "/" <= a.value || a.value + "/" <= b.value
  }

  // ----- normalisation keeps the location -----

  /** `ups` climbing segments followed by plain names: the shape of every list the loop keeps. */
  ghost predicate Shaped(kept: seq<string>, ups: nat) {
    ups <= |kept| &&
    (forall i :: 0 <= i < ups ==> kept[i] == "..") &&
    (forall i :: ups <= i < |kept| ==> IsName(kept[i]))
  }

  /** What one walk and one normalisation have in common after the segments `done`. */
  ghost predicate Tracks(done: seq<string>, kept: seq<string>, ups: nat) {
    Shaped(kept, ups) && Height(done) == |kept| - 2 * ups && (ups > 0 <==> Climbs(done)) &&
    (forall part <- kept :: part in done)
  }

  lemma HeightExtend(done: seq<string>, part: string)
    ensures Height(done + [part]) ==
      Height(done) + (if part == "" || part == "." then 0 else if part == ".." then -1 else 1)
    ensures Climbs(done + [part]) <==> Climbs(done) || Height(done + [part]) < 0
  {
    var all := done + [part];
    assert all[..|all| - 1] == done;
    assert all[..|all|] == all;
    if Climbs(done) {
      var k :| 0 <= k <= |done| && Height(done[..k]) < 0;
      assert all[..k] == done[..k];
    }
    if Climbs(all) && !(Height(all) < 0) {
      var k :| 0 <= k <= |all| && Height(all[..k]) < 0;
      assert all[..k] == done[..k];
    }
  }

  /** A segment that is kept: a name, or a climb that has nothing to take back. */
  lemma KeptTracks(done: seq<string>, part: string, kept: seq<string>, ups: nat)
    requires Tracks(done, kept, ups) && part != "" && part != "." && '/' !in part
    requires part != ".." || kept == [] || kept[|kept| - 1] == ".."
    ensures Tracks(done + [part], kept + [part], if part == ".." then ups + 1 else ups)
  {
    HeightExtend(done, part);
  }

  /** A climb that takes the last kept name back. */
  lemma DroppedTracks(done: seq<string>, kept: seq<string>, ups: nat)
    requires Tracks(done, kept, ups) && kept != [] && kept[|kept| - 1] != ".."
    ensures Tracks(done + [".."], kept[..|kept| - 1], ups)
  {
    HeightExtend(done, "..");
  }

  lemma SkippedTracks(done: seq<string>, part: string, kept: seq<string>, ups: nat)
    requires Tracks(done, kept, ups) && (part == "" || part == ".")
    ensures Tracks(done + [part], kept, ups)
  {
    HeightExtend(done, part);
  }

  lemma {:induction false} NormalTracks(done: seq<string>, rest: seq<string>, kept: seq<string>, ups: nat)
      returns (finalUps: nat)
    requires Tracks(done, kept, ups)
    requires forall part <- rest :: '/' !in part
    ensures Tracks(done + rest, NormalSegments(rest, kept), finalUps)
    decreases |rest|
  {
    if rest == [] {
      assert done + rest == done;
      finalUps := ups;
    } else {
      var part := rest[0];
      assert part in rest;
      assert done + rest == done + [part] + rest[1..];
      if part == "" || part == "." {
        SkippedTracks(done, part, kept, ups);
        finalUps := NormalTracks(done + [part], rest[1..], kept, ups);
      } else if part != ".." || kept == [] || kept[|kept| - 1] == ".." {
        KeptTracks(done, part, kept, ups);
        finalUps := NormalTracks(done + [part], rest[1..], kept + [part], if part == ".." then ups + 1 else ups);
      } else {
        DroppedTracks(done, kept, ups);
        finalUps := NormalTracks(done + [part], rest[1..], kept[..|kept| - 1], ups);
      }
    }
  }

  /** A climbing segment is never dropped again. */
  lemma {:induction false} ClimbStays(rest: seq<string>, kept: seq<string>)
    requires kept != [] && kept[0] == ".."
    ensures NormalSegments(rest, kept) != [] && NormalSegments(rest, kept)[0] == ".."
    decreases |rest|
  {
    if rest != [] {
      if rest[0] == "" || rest[0] == "." {
        ClimbStays(rest[1..], kept);
      } else if rest[0] != ".." || kept[|kept| - 1] == ".." {
        ClimbStays(rest[1..], kept + [rest[0]]);
      } else {
        ClimbStays(rest[1..], kept[..|kept| - 1]);
      }
    }
  }

  lemma {:induction false} NormalWalk(cwd: seq<string>, rest: seq<string>, kept: seq<string>)
    requires Shaped(kept, 0)
    requires forall part <- rest :: '/' !in part
    requires var all := NormalSegments(rest, kept); all == [] || all[0] != ".."
    ensures Walk(cwd + kept, rest) == cwd + NormalSegments(rest, kept)
    decreases |rest|
  {
    if rest != [] {
      var part := rest[0];
      if part == "" || part == "." {
        NormalWalk(cwd, rest[1..], kept);
      } else if part != ".." {
        assert cwd + (kept + [part]) == cwd + kept + [part];
        NormalWalk(cwd, rest[1..], kept + [part]);
      } else if kept == [] {
        ClimbStays(rest[1..], kept + [part]);
        assert false;
      } else {
        assert (cwd + kept)[..|cwd + kept| - 1] == cwd + kept[..|kept| - 1];
        NormalWalk(cwd, rest[1..], kept[..|kept| - 1]);
      }
    }
  }

  ghost predicate AllNames(parts: seq<string>) {
    forall part <- parts :: IsName(part)
  }

  /** Names survive another round of normalisation, and walking them goes straight down. */
  lemma {:induction false} NamesAreFixed(parts: seq<string>, kept: seq<string>)
    requires AllNames(parts)
    ensures NormalSegments(parts, kept) == kept + parts
    decreases |parts|
  {
    if parts != [] {
      assert IsName(parts[0]);
      NamesAreFixed(parts[1..], kept + [parts[0]]);
      assert kept + [parts[0]] + parts[1..] == kept + parts;
    } else {
      assert kept + parts == kept;
    }
  }

  lemma ClimbingString(value: string)
    ensures "../" <= value ==> Split(value)[0] == ".."
    ensures value == "." || value == ".." ==> Split(value) == [value]
  {
    if "../" <= value {
      SplitPrepend("..", value[3..]);
      assert value == ".." + ['/'] + value[3..];
    }
    if value == "." || value == ".." {
      SplitPrepend(value, []);
    }
  }

  lemma {:induction false} JoinOfNames(parts: seq<string>)
    requires AllNames(parts) && parts != []
    ensures |Join(parts)| > 0 && Join(parts)[0] != '/' && Join(parts)[|Join(parts)| - 1] != '/'
    ensures Join(parts) != "." && Join(parts) != ".." && !("../" <= Join(parts))
    ensures Split(Join(parts)) == parts
  {
    SplitOfJoin(parts);
    LastChar(parts);
    ClimbingString(Join(parts));
    assert IsName(parts[0]);
    if |parts| > 1 {
      assert Join(parts)[|parts[0]|] == '/';
    }
  }

  lemma {:induction false} LastChar(parts: seq<string>)
    requires AllNames(parts) && parts != []
    ensures |Join(parts)| > 0 && Join(parts)[|Join(parts)| - 1] != '/'
  {
    assert IsName(parts[0]);
    if |parts| > 1 {
      LastChar(parts[1..]);
    }
  }

  lemma {:induction false} CharsOfSplit(value: string, part: string, c: char)
    requires part in Split(value) && c in part
    ensures c in value
  {
    if value != [] {
      var rest := Split(value[1..]);
      if value[0] == '/' {
        if part != [] { CharsOfSplit(value[1..], part, c); }
      } else if part == [value[0]] + rest[0] && c != value[0] {
        CharsOfSplit(value[1..], rest[0], c);
      } else if part != [value[0]] + rest[0] {
        assert part in rest;
        CharsOfSplit(value[1..], part, c);
      }
    }
  }

  lemma {:induction false} CharsOfJoin(parts: seq<string>, c: char)
    requires c in Join(parts) && c != '/'
    ensures exists part <- parts :: c in part
  {
    if |parts| > 1 {
      if c in parts[0] {
      } else {
        assert c in Join(parts[1..]);
        CharsOfJoin(parts[1..], c);
      }
    }
  }

  /** What the segment loop computes, read off its invariant. */
  lemma NormalSummary(value: string) returns (ups: nat)
    ensures var kept := NormalSegments(Split(value), []);
            Shaped(kept, ups) && (ups > 0 <==> Climbs(Split(value))) && forall part <- kept :: part in Split(value)
  {
    assert [] + Split(value) == Split(value);
    assert !Climbs([]);
    ups := NormalTracks([], Split(value), [], 0);
  }

  /** A letter, by its ASCII code, and a colon. */
  ghost predicate NamesDrive(value: string) {
    |value| >= 2 && (65 <= value[0] as int <= 90 || 97 <= value[0] as int <= 122) && value[1] == ':'
  }

  /** Empty, absolute, on a drive, or with a zero character or a backslash. */
  ghost predicate Unreadable(value: string) {
    value == "" || "/" <= value || NamesDrive(value) || exists k :: 0 <= k < |value| && value[k] in {'\0', '\\'}
  }

  lemma DriveMeans(value: string)
    ensures HasDrivePrefix(value) <==> NamesDrive(value)
  {
  }

  lemma UnreadableMeans(value: string)
    ensures Refused(value) <==> Unreadable(value)
  {
    DriveMeans(value);
    if value != "" { assert "/" <= value <==> value[0] == '/'; }
  }

  /**
   Normalisation accepts exactly the unrefused spellings that never climb above their starting
   directory, and from every working directory the result names the same location: `cwd` extended
   by the result's segments, all of which are ordinary names.
   */
  lemma CanonicalNamesTheSameLocation(value: string)
    ensures Canonical(value).Some? <==> !Unreadable(value) && !Climbs(Split(value))
    ensures Canonical(value).Some? ==>
      var c := Canonical(value).value;
      AllNames(Segments(c)) && c == (if Segments(c) == [] then "." else Join(Segments(c))) &&
      forall cwd :: Walk(cwd, Split(value)) == cwd + Segments(c)
    ensures Canonical(value).Some? ==> Segments(Canonical(value).value) == NormalSegments(Split(value), [])
  {
    UnreadableMeans(value);
    if !Refused(value) {
      var kept := NormalSegments(Split(value), []);
      var ups := NormalSummary(value);
      if ups > 0 {
        assert kept[0] == "..";
        if |kept| > 1 {
          assert Join(kept) == ".." + ['/'] + Join(kept[1..]);
        }
      } else {
        assert AllNames(kept) by { forall part
          | part in kept ensures IsName(part) { var i :| 0 <= i < |kept| && kept[i] == part; } }
        if kept != [] { JoinOfNames(kept); }
        forall cwd: seq<string> ensures Walk(cwd, Split(value)) == cwd + kept {
          assert cwd + [] == cwd;
          NormalWalk(cwd, Split(value), []);
        }
      }
    }
  }

  /** Re-normalising returns the same string, except when the drive-letter rule now refuses it. */
  lemma CanonicalAgain(value: string)
    requires Canonical(value).Some?
    ensures var c := Canonical(value).value;
            Canonical(c) == if NamesDrive(c) then None else Some(c)
  {
    DriveMeans(Canonical(value).value);
    CanonicalNamesTheSameLocation(value);
    var c := Canonical(value).value;
    if Segments(c) == [] {
      RootAgain();
    } else {
      NoForbiddenCharacters(value);
      NamesAgain(Segments(c));
    }
  }

  lemma RootAgain()
    ensures Canonical(".") == Some(".") && !HasDrivePrefix(".")
  {
    SplitPrepend(".", "");
    assert NormalSegments(["."], []) == NormalSegments([], []);
  }

  /** Joined names are normal already. */
  lemma NamesAgain(names: seq<string>)
    requires AllNames(names) && names != [] && '\0' !in Join(names) && '\\' !in Join(names)
    ensures Canonical(Join(names)) == if HasDrivePrefix(Join(names)) then None else Some(Join(names))
  {
    JoinOfNames(names);
    NamesAreFixed(names, []);
    assert [] + names == names;
  }

  /** Normalisation brings in no character that the input did not have. */
  lemma NoForbiddenCharacters(value: string)
    requires Canonical(value).Some? && Segments(Canonical(value).value) != []
    ensures '\0' !in Canonical(value).value && '\\' !in Canonical(value).value
  {
    CanonicalNamesTheSameLocation(value);
    var kept := Segments(Canonical(value).value);
    var ups := NormalSummary(value);
    forall d | d == '\0' || d == '\\' ensures d !in Join(kept) {
      if d in Join(kept) {
        CharsOfJoin(kept, d);
        var part :| part in kept && d in part;
        CharsOfSplit(value, part, d);
      }
    }
  }

  lemma NormPathAfterDot(names: seq<string>)
    requires AllNames(names) && names != []
    ensures NormPath("." + ['/'] + Join(names)) == Join(names)
  {
    JoinOfNames(names);
    SplitPrepend(".", Join(names));
    assert (["."] + names)[1..] == names;
    NamesAreFixed(names, []);
    assert [] + names == names;
  }

  lemma DriveLetterNormalises()
    ensures NormPath("./C:/x") == "C:/x"
  {
    var names := ["C:", "x"];
    assert Join(names) == "C:/x" by { assert names[1..] == ["x"]; }
    NormPathAfterDot(names);
    assert "." + ['/'] + "C:/x" == "./C:/x";
  }

  /** The exception is real: "./C:/x" is accepted, and its result is refused. */
  lemma DriveLetterExample()
    ensures Canonical("./C:/x") == Some("C:/x") && Canonical("C:/x") == None
  {
    DriveLetterNormalises();
  }

  // ----- overlap -----

  /** `place` lies in or under the directory named by the segments `top`. */
  predicate Under(place: seq<string>, top: seq<string>) {
    top <= place
  }

  lemma {:induction false} StringPrefixIsSegmentPrefix(upper: seq<string>, lower: seq<string>)
    requires AllNames(upper) && AllNames(lower) && upper != [] && lower != []
    ensures Join(upper) + "/" <= Join(lower) <==> upper < lower
    ensures Join(upper) == Join(lower) <==> upper == lower
  {
    JoinOfNames(upper);
    JoinOfNames(lower);
    if upper < lower {
      JoinConcat(upper, lower[|upper|..]);
      assert upper + lower[|upper|..] == lower;
    }
    if Join(upper) + "/" <= Join(lower) {
      var rest := Join(lower)[|Join(upper)| + 1..];
      assert Join(lower) == Join(upper) + "/" + rest;
      SplitConcat(upper, rest);
    }
  }

  lemma {:induction false} JoinConcat(left: seq<string>, right: seq<string>)
    requires left != [] && right != []
    ensures Join(left + right) == Join(left) + "/" + Join(right)
  {
    assert (left + right)[1..] == left[1..] + right;
    if |left| > 1 {
      JoinConcat(left[1..], right);
    } else {
      assert left[1..] + right == right;
    }
  }

  lemma FirstPart(left: seq<string>, rest: string)
    requires |left| > 1
    ensures Join(left) + "/" + rest == left[0] + ['/'] + (Join(left[1..]) + "/" + rest)
  {}

  lemma {:induction false} SplitConcat(left: seq<string>, rest: string)
    requires left != [] && forall part <- left :: '/' !in part
    ensures Split(Join(left) + "/" + rest) == left + Split(rest)
  {
    assert left[0] in left;
    if |left| == 1 {
      SplitPrepend(left[0], rest);
      assert left == [left[0]];
    } else {
      SplitConcat(left[1..], rest);
      FirstPart(left, rest);
      SplitPrepend(left[0], Join(left[1..]) + "/" + rest);
      assert [left[0]] + (left[1..] + Split(rest)) == left + Split(rest);
    }
  }

  /** Two subtrees meet exactly when one of the two directories lies in or under the other. */
  lemma SubtreesMeet(a: seq<string>, b: seq<string>)
    ensures (exists place :: Under(place, a) && Under(place, b)) <==> a <= b || b <= a
  {
    forall place | Under(place, a) && Under(place, b) ensures a <= b || b <= a {
      assert a == place[..|a|] && b == place[..|b|];
    }
    assert a <= b ==> Under(b, a) && Under(b, b);
    assert b <= a ==> Under(a, a) && Under(a, b);
  }

  /** On valid spellings the string comparison compares segments. */
  lemma OverlapComparesSegments(left: string, right: string)
    requires Canonical(left).Some? && Canonical(right).Some?
    ensures var a, b := Segments(Canonical(left).value), Segments(Canonical(right).value);
            PathOverlap(left, right) <==> a <= b || b <= a
  {
    CanonicalNamesTheSameLocation(left);
    CanonicalNamesTheSameLocation(right);
    SegmentComparison(Segments(Canonical(left).value), Segments(Canonical(right).value));
  }

  lemma SegmentComparison(a: seq<string>, b: seq<string>)
    requires AllNames(a) && AllNames(b)
    ensures a != [] ==> Join(a) != "."
    ensures b != [] ==> Join(b) != "."
    ensures a != [] && b != [] ==>
      ((Join(a) == Join(b) || Join(b) + "/" <= Join(a) || Join(a) + "/" <= Join(b)) <==> a <= b || b <= a)
  {
    if a != [] { JoinOfNames(a); }
    if b != [] { JoinOfNames(b); }
    if a != [] && b != [] {
      StringPrefixIsSegmentPrefix(a, b);
      StringPrefixIsSegmentPrefix(b, a);
    }
  }

  /**
   The string comparison decides whether two subtrees meet: it answers "no overlap" exactly when both
   spellings are valid and no location lies in or under both of them.
   */
  lemma OverlapMeansSharedLocation(left: string, right: string)
    ensures !PathOverlap(left, right) <==>
      Canonical(left).Some? && Canonical(right).Some? &&
      forall place :: !(Under(place, Segments(Canonical(left).value)) && Under(place, Segments(Canonical(right).value)))
  {
    if Canonical(left).Some? && Canonical(right).Some? {
      OverlapComparesSegments(left, right);
      SubtreesMeet(Segments(Canonical(left).value), Segments(Canonical(right).value));
    }
  }
}
