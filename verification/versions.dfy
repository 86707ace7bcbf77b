/** Filtering of Foundry image tags into the version list the bot offers:
    numeric tags only, one spelling per zero-padded version key, sorted
    newest first, at most five versions for each of the three newest majors,
    plus the version the `release` tag points at. */
module Versions {
  import opened Common

  /** One Docker Hub tag: its name and the digest of its first image. */
  datatype Tag = Tag(name: string, digest: Option<string>)

  /** The bot's view of the tag list: versions to offer and the stable one. */
  datatype Selection = Selection(versions: seq<string>, stable: Option<string>)

  const ReleaseTag: string := "release"
  const KeyWidth: nat := 3
  const MaxMajors: nat := 3
  const PerMajor: nat := 5

  // ---- Parsing ---------------------------------------------------------------

  /** `s.split(c)` for a one-character separator. */
  function Split(s: string, c: char): (parts: seq<string>)
    ensures |parts| >= 1
    ensures forall i :: 0 <= i < |parts| ==> c !in parts[i]
    decreases |s|
  {
    if |s| == 0 then [""]
    else
      var rest := Split(s[1..], c);
      if s[0] == c then [""] + rest
      else [[s[0]] + rest[0]] + rest[1..]
  }

  /** `c.join(parts)`. */
  function Join(parts: seq<string>, c: char): string
    requires |parts| >= 1
    decreases |parts|
  {
    if |parts| == 1 then parts[0] else parts[0] + [c] + Join(parts[1..], c)
  }

  /** Splitting loses nothing: joining the pieces gives the string back. */
  lemma {:induction false} JoinSplit(s: string, c: char)
    ensures Join(Split(s, c), c) == s
    decreases |s|
  {
    if |s| > 0 {
      var rest := Split(s[1..], c);
      JoinSplit(s[1..], c);
      if s[0] == c {
        assert ([""] + rest)[1..] == rest;
      } else {
        var parts := [[s[0]] + rest[0]] + rest[1..];
        if |rest| == 1 {
          assert Join(rest, c) == rest[0];
        } else {
          assert parts[1..] == rest[1..];
          assert Join(rest, c) == rest[0] + [c] + Join(rest[1..], c);
        }
      }
    }
  }

  /** Python's `$` also matches just before a final newline, so the pattern
      is tested against the name with one trailing "\n" removed. */
  function Body(name: string): string {
    if |name| > 0 && name[|name| - 1] == '\n' then name[..|name| - 1] else name
  }

  /** At least two dot-separated groups, each a non-empty run of digits. */
  predicate DottedDigits(parts: seq<string>) {
    |parts| >= 2 && forall i :: 0 <= i < |parts| ==> |parts[i]| > 0 && AllDigits(parts[i])
  }

  /** `re.match(r'^\d+(\.\d+)+$', name)`, for ASCII digits. */
  predicate IsVersion(name: string) {
    DottedDigits(Split(Body(name), '.'))
  }

  /** The language of `\d+(\.\d+)+`, character by character: digits and
      dots, starting and ending with a digit, no two dots in a row, and at
      least one dot. */
  predicate DigitRuns(s: string) {
    && |s| > 0 && IsDigit(s[0]) && IsDigit(s[|s| - 1])
    && (forall i :: 0 <= i < |s| ==> IsDigit(s[i]) || s[i] == '.')
    && (forall i :: 0 <= i < |s| - 1 ==> s[i] == '.' ==> s[i + 1] != '.')
  }

  lemma {:induction false} JoinedDigitRuns(parts: seq<string>)
    requires |parts| >= 1
    requires forall i :: 0 <= i < |parts| ==> |parts[i]| > 0 && AllDigits(parts[i])
    ensures DigitRuns(Join(parts, '.'))
    ensures |parts| >= 2 ==> '.' in Join(parts, '.')
    decreases |parts|
  {
    if |parts| > 1 {
      var tail := Join(parts[1..], '.');
      JoinedDigitRuns(parts[1..]);
      var s := parts[0] + ['.'] + tail;
      assert s[|parts[0]|] == '.';
      forall i | 0 <= i < |s| ensures IsDigit(s[i]) || s[i] == '.' {
        if i > |parts[0]| {
          assert s[i] == tail[i - |parts[0]| - 1];
        }
      }
      forall i | 0 <= i < |s| - 1 && s[i] == '.' ensures s[i + 1] != '.' {
        if i > |parts[0]| {
          assert s[i] == tail[i - |parts[0]| - 1];
        }
      }
    }
  }

  /** A name accepted as a version, minus a final newline, is in the pattern's language. */
  lemma VersionMatchesPattern(name: string)
    requires IsVersion(name)
    ensures DigitRuns(Body(name)) && '.' in Body(name)
  {
    JoinSplit(Body(name), '.');
    JoinedDigitRuns(Split(Body(name), '.'));
  }

  /** Only digits and dots, no two dots in a row, not ending in a dot. */
  predicate DotGroups(s: string) {
    && (forall i :: 0 <= i < |s| ==> IsDigit(s[i]) || s[i] == '.')
    && (forall i :: 0 <= i < |s| - 1 ==> s[i] == '.' ==> s[i + 1] != '.')
    && (|s| > 0 ==> s[|s| - 1] != '.')
  }

  /** Splitting such a string at the dots gives digit groups, all non-empty
      except a first one before a leading dot, and a second group exactly
      when there is a dot. */
  lemma {:induction false} SplitDotGroups(s: string)
    requires DotGroups(s)
    ensures var parts := Split(s, '.');
      && (forall k :: 0 <= k < |parts| ==> AllDigits(parts[k]))
      && (forall k :: 1 <= k < |parts| ==> |parts[k]| > 0)
      && (|parts[0]| > 0 <==> |s| > 0 && s[0] != '.')
      && (|parts| >= 2 <==> '.' in s)
    decreases |s|
  {
    if |s| > 0 {
      var t := s[1..];
      assert DotGroups(t) by {
        assert forall i :: 0 <= i < |t| ==> t[i] == s[i + 1];
      }
      SplitDotGroups(t);
      var rest := Split(t, '.');
      assert '.' in s <==> s[0] == '.' || '.' in t by {
        assert s == [s[0]] + t;
      }
      if s[0] == '.' {
        assert |t| > 0 && t[0] != '.';
        assert Split(s, '.') == [""] + rest;
      } else {
        var parts := Split(s, '.');
        assert parts == [[s[0]] + rest[0]] + rest[1..];
        assert forall k :: 1 <= k < |parts| ==> parts[k] == rest[k];
        assert AllDigits(parts[0]) by {
          assert forall i :: 1 <= i < |parts[0]| ==> parts[0][i] == rest[0][i - 1];
        }
      }
    }
  }

  /** Every name in the pattern's language, minus a final newline, is
      accepted as a version. */
  lemma PatternIsVersion(name: string)
    requires DigitRuns(Body(name)) && '.' in Body(name)
    ensures IsVersion(name)
  {
    SplitDotGroups(Body(name));
  }

  /** The version test is exactly the pattern `^\d+(\.\d+)+$`. */
  lemma VersionIffPattern(name: string)
    ensures IsVersion(name) <==> DigitRuns(Body(name)) && '.' in Body(name)
  {
    if IsVersion(name) {
      VersionMatchesPattern(name);
    } else if DigitRuns(Body(name)) && '.' in Body(name) {
      PatternIsVersion(name);
    }
  }

  /** `[int(p) for p in parts]` */
  function Values(parts: seq<string>): (vs: seq<nat>)
    ensures |vs| == |parts|
    decreases |parts|
  {
    if |parts| == 0 then [] else [DecimalValue(parts[0])] + Values(parts[1..])
  }

  /** `[int(p) for p in name.split('.')]`, applied to names the pattern
      accepts; `int` ignores the trailing newline the pattern lets through, so
      the groups of `Body` give the same numbers. */
  function Components(v: string): (cs: seq<nat>)
    ensures |cs| >= 1
  {
    Values(Split(Body(v), '.'))
  }

  function Major(v: string): nat {
    Components(v)[0]
  }

  /** Appends zeros until the list has `width` entries. */
  function Pad(xs: seq<nat>, width: nat): (r: seq<nat>)
    ensures |r| == if |xs| >= width then |xs| else width
    ensures r[..|xs|] == xs
    ensures forall i :: |xs| <= i < |r| ==> r[i] == 0
    decreases width - |xs|
  {
    if |xs| >= width then xs else Pad(xs + [0], width)
  }

  /** The dedupe key: the integer groups padded to three entries. */
  function Key(v: string): (k: seq<nat>)
    ensures |k| >= KeyWidth && |k| >= |Components(v)|
    ensures k[..|Components(v)|] == Components(v)
    ensures forall i :: |Components(v)| <= i < |k| ==> k[i] == 0
    ensures |Components(v)| < KeyWidth ==> |k| == KeyWidth
    ensures |Components(v)| >= KeyWidth ==> k == Components(v)
  {
    Pad(Components(v), KeyWidth)
  }

  /** Spellings with equal numbers share a key, and the key starts with the major. */
  lemma KeyFollowsComponents(a: string, b: string)
    ensures Components(a) == Components(b) ==> Key(a) == Key(b)
    ensures Key(a)[0] == Major(a)
  {
    assert Key(a)[..|Components(a)|] == Components(a);
    assert Key(a)[0] == Key(a)[..|Components(a)|][0];
  }

  // ---- Python list ordering --------------------------------------------------

  /** `a < b` on lists of integers: lexicographic, a proper prefix is smaller. */
  predicate LexLess(a: seq<nat>, b: seq<nat>)
    decreases |a|
  {
    if |a| == 0 then |b| > 0
    else |b| > 0 && (a[0] < b[0] || (a[0] == b[0] && LexLess(a[1..], b[1..])))
  }

  lemma {:induction false} LexIrreflexive(a: seq<nat>)
    ensures !LexLess(a, a)
    decreases |a|
  {
    if |a| > 0 {
      LexIrreflexive(a[1..]);
    }
  }

  lemma {:induction false} LexTransitive(a: seq<nat>, b: seq<nat>, c: seq<nat>)
    requires LexLess(a, b) && LexLess(b, c)
    ensures LexLess(a, c)
    decreases |a|
  {
    if |a| > 0 && a[0] == b[0] && b[0] == c[0] {
      LexTransitive(a[1..], b[1..], c[1..]);
    }
  }

  lemma {:induction false} LexTotal(a: seq<nat>, b: seq<nat>)
    ensures a == b || LexLess(a, b) || LexLess(b, a)
    decreases |a|
  {
    if |a| > 0 && |b| > 0 && a[0] == b[0] {
      LexTotal(a[1..], b[1..]);
      if a[1..] == b[1..] {
        assert a == [a[0]] + a[1..] && b == [b[0]] + b[1..];
      }
    }
  }

  /** A larger first entry decides the comparison. */
  lemma MajorDecides(a: seq<nat>, b: seq<nat>)
    requires |a| > 0 && |b| > 0 && a[0] < b[0]
    ensures LexLess(a, b) && !LexLess(b, a)
  {
  }

  // ---- Sorting ---------------------------------------------------------------

  /** `v` sorts strictly after `w` in descending order. */
  predicate Below(v: string, w: string) {
    LexLess(Components(v), Components(w))
  }

  predicate StrictlyDescending(s: seq<string>) {
    forall i, j :: 0 <= i < j < |s| ==> Below(s[j], s[i])
  }

  predicate DistinctComponents(s: seq<string>) {
    forall i, j :: 0 <= i < j < |s| ==> Components(s[i]) != Components(s[j])
  }

  /** Inserts `x` in front of the first element it is not below. */
  function Insert(x: string, s: seq<string>): (r: seq<string>)
    ensures multiset(r) == multiset(s) + multiset{x}
    decreases |s|
  {
    if |s| == 0 then [x]
    else if !Below(x, s[0]) then [x] + s
    else
      assert s == [s[0]] + s[1..];
      [s[0]] + Insert(x, s[1..])
  }

  /** `sorted(s, key=components, reverse=True)`: insertion sort that keeps
      equal elements in their original order, as Python's stable sort does. */
  function SortDescending(s: seq<string>): (r: seq<string>)
    ensures multiset(r) == multiset(s)
    decreases |s|
  {
    if |s| == 0 then []
    else
      assert s == [s[0]] + s[1..];
      Insert(s[0], SortDescending(s[1..]))
  }

  lemma {:induction false} InsertDescending(x: string, s: seq<string>)
    requires StrictlyDescending(s)
    requires forall k :: 0 <= k < |s| ==> Components(s[k]) != Components(x)
    ensures StrictlyDescending(Insert(x, s))
    decreases |s|
  {
    if |s| > 0 {
      var r := Insert(x, s);
      if !Below(x, s[0]) {
        LexTotal(Components(x), Components(s[0]));
        forall j | 0 < j < |r| ensures Below(r[j], r[0]) {
          if j > 1 {
            LexTransitive(Components(s[j - 1]), Components(s[0]), Components(x));
          }
        }
      } else {
        var tail := Insert(x, s[1..]);
        assert forall k :: 0 <= k < |s[1..]| ==> s[1..][k] == s[k + 1];
        InsertDescending(x, s[1..]);
        forall j | 0 <= j < |tail| ensures Below(tail[j], s[0]) {
          assert tail[j] in multiset(tail);
          if tail[j] != x {
            assert tail[j] in multiset(s[1..]);
            var k :| 0 <= k < |s[1..]| && s[1..][k] == tail[j];
          }
        }
        assert r == [s[0]] + tail;
      }
    }
  }

  /** Distinct keys sort into a strictly descending list. */
  lemma {:induction false} SortStrictlyDescending(s: seq<string>)
    requires DistinctComponents(s)
    ensures StrictlyDescending(SortDescending(s))
    decreases |s|
  {
    if |s| > 0 {
      var rest := SortDescending(s[1..]);
      SortStrictlyDescending(s[1..]);
      forall k | 0 <= k < |rest| ensures Components(rest[k]) != Components(s[0]) {
        assert rest[k] in multiset(s[1..]);
        var j :| 0 <= j < |s[1..]| && s[1..][j] == rest[k];
        assert s[1..][j] == s[j + 1];
      }
      InsertDescending(s[0], rest);
    }
  }

  // ---- Dedupe by key ---------------------------------------------------------
  // The first pass is stated for any key function; `Key` is the one used.

  /** Reference definition: the numeric spellings with key `k`, in tag order. */
  function Spellings(tags: seq<Tag>, k: seq<nat>, key: string -> seq<nat>): seq<string>
    decreases |tags|
  {
    if |tags| == 0 then []
    else
      var names := Spellings(tags[..|tags| - 1], k, key);
      var name := tags[|tags| - 1].name;
      if IsVersion(name) && key(name) == k then names + [name] else names
  }

  /** The first of the shortest strings. */
  function FirstShortest(s: seq<string>): Option<string>
    decreases |s|
  {
    if |s| == 0 then None
    else
      var best := FirstShortest(s[..|s| - 1]);
      var last := s[|s| - 1];
      if best.None? || |last| < |best.value| then Some(last) else best
  }

  /** `s[j]` is shorter than every element before it. */
  ghost predicate FirstShortestAt(s: seq<string>, j: int) {
    0 <= j < |s| && forall i :: 0 <= i < j ==> |s[j]| < |s[i]|
  }

  /** `FirstShortest` picks a shortest element, and no earlier element is as short. */
  lemma {:induction false} FirstShortestIsFirstMinimum(s: seq<string>)
    ensures FirstShortest(s).None? <==> |s| == 0
    ensures FirstShortest(s).Some? ==> forall i :: 0 <= i < |s| ==> |FirstShortest(s).value| <= |s[i]|
    ensures FirstShortest(s).Some? ==> exists j :: FirstShortestAt(s, j) && s[j] == FirstShortest(s).value
    decreases |s|
  {
    if |s| > 0 {
      var prefix := s[..|s| - 1];
      FirstShortestIsFirstMinimum(prefix);
      assert forall i :: 0 <= i < |s| - 1 ==> prefix[i] == s[i];
      var best := FirstShortest(prefix);
      if best.Some? && !(|s[|s| - 1]| < |best.value|) {
        var j :| FirstShortestAt(prefix, j) && prefix[j] == best.value;
        assert s[j] == best.value && FirstShortestAt(s, j);
      }
    }
  }

  /** Position of the first entry with key `k`, or `|reps|` when there is none. */
  function KeyIndex(reps: seq<string>, k: seq<nat>, key: string -> seq<nat>): (i: nat)
    ensures i <= |reps|
    ensures i < |reps| ==> key(reps[i]) == k
    ensures forall j :: 0 <= j < i ==> key(reps[j]) != k
    decreases |reps|
  {
    if |reps| == 0 then 0
    else if key(reps[0]) == k then 0
    else 1 + KeyIndex(reps[1..], k, key)
  }

  /** One step of the first pass over `versions_map`: a new key is appended,
      a strictly shorter spelling replaces the stored one in place. */
  function Admit(reps: seq<string>, v: string, key: string -> seq<nat>): (r: seq<string>)
    ensures |reps| <= |r| <= |reps| + 1
    ensures forall i :: 0 <= i < |r| ==> r[i] == v || (i < |reps| && r[i] == reps[i])
  {
    var i := KeyIndex(reps, key(v), key);
    if i == |reps| then reps + [v]
    else if |v| < |reps[i]| then reps[i := v]
    else reps
  }

  /** The values of `versions_map` after the first pass, in insertion order:
      numeric tag names only, at most one per tag. */
  function Dedupe(tags: seq<Tag>, key: string -> seq<nat>): (reps: seq<string>)
    ensures |reps| <= |tags|
    ensures forall i :: 0 <= i < |reps| ==> IsVersion(reps[i])
    decreases |tags|
  {
    if |tags| == 0 then []
    else
      var reps := Dedupe(tags[..|tags| - 1], key);
      var name := tags[|tags| - 1].name;
      if IsVersion(name) then Admit(reps, name, key) else reps
  }

  predicate DistinctKeys(reps: seq<string>, key: string -> seq<nat>) {
    forall i, j :: 0 <= i < j < |reps| ==> key(reps[i]) != key(reps[j])
  }

  ghost predicate HasKey(reps: seq<string>, k: seq<nat>, key: string -> seq<nat>) {
    exists i :: 0 <= i < |reps| && key(reps[i]) == k
  }

  /** What the first pass keeps: one entry per key that occurs, and that entry
      is the first of the shortest spellings of its key. */
  ghost predicate Deduped(tags: seq<Tag>, reps: seq<string>, key: string -> seq<nat>) {
    DistinctKeys(reps, key) && RepsShortest(tags, reps, key) && CoversKeys(tags, reps, key)
  }

  /** Each stored spelling is the first of the shortest spellings of its key. */
  ghost predicate RepsShortest(tags: seq<Tag>, reps: seq<string>, key: string -> seq<nat>) {
    forall i :: 0 <= i < |reps| ==> FirstShortest(Spellings(tags, key(reps[i]), key)) == Some(reps[i])
  }

  /** Every key that occurs among the tags is stored. */
  ghost predicate CoversKeys(tags: seq<Tag>, reps: seq<string>, key: string -> seq<nat>) {
    forall k :: Spellings(tags, k, key) != [] ==> HasKey(reps, k, key)
  }

  /** How one more tag changes the spellings of every key. */
  ghost predicate SpellingsGrow(tags: seq<Tag>, tags': seq<Tag>, t: Tag, key: string -> seq<nat>) {
    forall k :: Spellings(tags', k, key) ==
      if IsVersion(t.name) && key(t.name) == k then Spellings(tags, k, key) + [t.name] else Spellings(tags, k, key)
  }

  lemma SpellingsSnoc(tags: seq<Tag>, t: Tag, key: string -> seq<nat>)
    ensures SpellingsGrow(tags, tags + [t], t, key)
  {
    assert (tags + [t])[..|tags|] == tags;
  }

  lemma FirstShortestSnoc(s: seq<string>, x: string)
    ensures FirstShortest(s + [x]) ==
      if FirstShortest(s).None? || |x| < |FirstShortest(s).value| then Some(x) else FirstShortest(s)
  {
    assert (s + [x])[..|s|] == s;
  }

  lemma NewKeyDistinct(reps: seq<string>, v: string, key: string -> seq<nat>)
    requires DistinctKeys(reps, key) && KeyIndex(reps, key(v), key) == |reps|
    ensures DistinctKeys(reps + [v], key)
  {
    var reps' := reps + [v];
    forall i, j | 0 <= i < j < |reps'| ensures key(reps'[i]) != key(reps'[j]) {
      assert reps'[i] == reps[i];
      if j < |reps| {
        assert reps'[j] == reps[j];
      }
    }
  }

  lemma NewKeyShortest(tags: seq<Tag>, tags': seq<Tag>, reps: seq<string>, v: string,
                       key: string -> seq<nat>)
    requires IsVersion(v)
    requires RepsShortest(tags, reps, key) && SpellingsGrow(tags, tags', Tag(v, None), key)
    requires KeyIndex(reps, key(v), key) == |reps| && Spellings(tags, key(v), key) == []
    ensures RepsShortest(tags', reps + [v], key)
  {
    var k := key(v);
    var reps' := reps + [v];
    assert Spellings(tags', k, key) == [v];
    assert FirstShortest([v]) == Some(v);
    forall j | 0 <= j < |reps'|
      ensures FirstShortest(Spellings(tags', key(reps'[j]), key)) == Some(reps'[j])
    {
      if j < |reps| {
        assert reps'[j] == reps[j];
        assert Spellings(tags', key(reps[j]), key) == Spellings(tags, key(reps[j]), key);
      }
    }
  }

  lemma NewKeyCovers(tags: seq<Tag>, tags': seq<Tag>, reps: seq<string>, v: string,
                     key: string -> seq<nat>)
    requires IsVersion(v)
    requires CoversKeys(tags, reps, key) && SpellingsGrow(tags, tags', Tag(v, None), key)
    ensures CoversKeys(tags', reps + [v], key)
  {
    var k := key(v);
    var reps' := reps + [v];
    forall k' | Spellings(tags', k', key) != [] ensures HasKey(reps', k', key) {
      if k' == k {
        assert key(reps'[|reps|]) == k;
      } else {
        assert Spellings(tags, k', key) != [];
        var j :| 0 <= j < |reps| && key(reps[j]) == k';
        assert key(reps'[j]) == k';
      }
    }
  }

  lemma AdmitNewKey(tags: seq<Tag>, tags': seq<Tag>, reps: seq<string>, v: string,
                    key: string -> seq<nat>)
    requires IsVersion(v)
    requires Deduped(tags, reps, key) && SpellingsGrow(tags, tags', Tag(v, None), key)
    requires KeyIndex(reps, key(v), key) == |reps|
    ensures Deduped(tags', reps + [v], key)
  {
    assert !HasKey(reps, key(v), key);
    assert Spellings(tags, key(v), key) == [];
    NewKeyDistinct(reps, v, key);
    NewKeyShortest(tags, tags', reps, v, key);
    NewKeyCovers(tags, tags', reps, v, key);
  }

  lemma AdmitShorter(tags: seq<Tag>, tags': seq<Tag>, reps: seq<string>, v: string, i: nat,
                     key: string -> seq<nat>)
    requires IsVersion(v)
    requires Deduped(tags, reps, key) && SpellingsGrow(tags, tags', Tag(v, None), key)
    requires i == KeyIndex(reps, key(v), key) && i < |reps| && |v| < |reps[i]|
    ensures Deduped(tags', reps[i := v], key)
  {
    ReplaceDistinct(reps, v, i, key);
    ReplaceShortest(tags, tags', reps, v, i, key);
    ReplaceCovers(tags, tags', reps, v, i, key);
  }

  lemma ReplaceDistinct(reps: seq<string>, v: string, i: nat, key: string -> seq<nat>)
    requires DistinctKeys(reps, key) && i < |reps| && key(reps[i]) == key(v)
    ensures DistinctKeys(reps[i := v], key)
  {
    var reps' := reps[i := v];
    assert forall j :: 0 <= j < |reps| ==> key(reps'[j]) == key(reps[j]);
  }

  lemma ReplaceShortest(tags: seq<Tag>, tags': seq<Tag>, reps: seq<string>, v: string, i: nat,
                        key: string -> seq<nat>)
    requires IsVersion(v)
    requires RepsShortest(tags, reps, key) && DistinctKeys(reps, key)
    requires SpellingsGrow(tags, tags', Tag(v, None), key)
    requires i == KeyIndex(reps, key(v), key) && i < |reps| && |v| < |reps[i]|
    ensures RepsShortest(tags', reps[i := v], key)
  {
    var k := key(v);
    var reps' := reps[i := v];
    FirstShortestSnoc(Spellings(tags, k, key), v);
    forall j | 0 <= j < |reps'|
      ensures FirstShortest(Spellings(tags', key(reps'[j]), key)) == Some(reps'[j])
    {
      if j != i {
        assert key(reps[j]) != k;
        assert reps'[j] == reps[j];
      }
    }
  }

  lemma ReplaceCovers(tags: seq<Tag>, tags': seq<Tag>, reps: seq<string>, v: string, i: nat,
                      key: string -> seq<nat>)
    requires IsVersion(v)
    requires CoversKeys(tags, reps, key) && SpellingsGrow(tags, tags', Tag(v, None), key)
    requires i < |reps| && key(reps[i]) == key(v)
    ensures CoversKeys(tags', reps[i := v], key)
  {
    var reps' := reps[i := v];
    forall k' | Spellings(tags', k', key) != [] ensures HasKey(reps', k', key) {
      assert Spellings(tags, k', key) != [] || k' == key(v);
      var j :| 0 <= j < |reps| && key(reps[j]) == k';
      assert key(reps'[j]) == k';
    }
  }

  lemma AdmitNotShorter(tags: seq<Tag>, tags': seq<Tag>, reps: seq<string>, v: string, i: nat,
                        key: string -> seq<nat>)
    requires IsVersion(v)
    requires Deduped(tags, reps, key) && SpellingsGrow(tags, tags', Tag(v, None), key)
    requires i == KeyIndex(reps, key(v), key) && i < |reps| && |v| >= |reps[i]|
    ensures Deduped(tags', reps, key)
  {
    var k := key(v);
    FirstShortestSnoc(Spellings(tags, k, key), v);
    forall j | 0 <= j < |reps| ensures FirstShortest(Spellings(tags', key(reps[j]), key)) == Some(reps[j]) {
      if j != i {
        assert key(reps[j]) != k;
      }
    }
    forall k' | Spellings(tags', k', key) != [] ensures HasKey(reps, k', key) {
      if k' != k {
        assert Spellings(tags, k', key) != [];
      }
    }
  }

  lemma AdmitKeepsDeduped(tags: seq<Tag>, reps: seq<string>, t: Tag, key: string -> seq<nat>)
    requires Deduped(tags, reps, key)
    ensures Deduped(tags + [t], if IsVersion(t.name) then Admit(reps, t.name, key) else reps, key)
  {
    var tags' := tags + [t];
    SpellingsSnoc(tags, t, key);
    if IsVersion(t.name) {
      var v := t.name;
      assert SpellingsGrow(tags, tags', Tag(v, None), key);
      var i := KeyIndex(reps, key(v), key);
      if i == |reps| {
        AdmitNewKey(tags, tags', reps, v, key);
      } else if |v| < |reps[i]| {
        AdmitShorter(tags, tags', reps, v, i, key);
      } else {
        AdmitNotShorter(tags, tags', reps, v, i, key);
      }
    } else {
      assert forall k :: Spellings(tags', k, key) == Spellings(tags, k, key);
    }
  }

  lemma {:induction false} DedupeDeduped(tags: seq<Tag>, key: string -> seq<nat>)
    ensures Deduped(tags, Dedupe(tags, key), key)
    decreases |tags|
  {
    if |tags| == 0 {
      assert forall k :: Spellings(tags, k, key) == [];
    } else {
      var prefix := tags[..|tags| - 1];
      DedupeDeduped(prefix, key);
      assert prefix + [tags[|tags| - 1]] == tags;
      AdmitKeepsDeduped(prefix, Dedupe(prefix, key), tags[|tags| - 1], key);
    }
  }

  /** Every spelling of a key comes from a numeric tag with that key, and
      every numeric tag is a spelling of its own key. */
  lemma {:induction false} SpellingsOfTags(tags: seq<Tag>, k: seq<nat>, key: string -> seq<nat>)
    ensures forall x :: x in Spellings(tags, k, key) ==>
      exists j :: 0 <= j < |tags| && tags[j].name == x && IsVersion(x) && key(x) == k
    ensures forall j :: 0 <= j < |tags| && IsVersion(tags[j].name) && key(tags[j].name) == k ==>
      tags[j].name in Spellings(tags, k, key)
    decreases |tags|
  {
    if |tags| > 0 {
      var prefix := tags[..|tags| - 1];
      SpellingsOfTags(prefix, k, key);
      assert forall j :: 0 <= j < |prefix| ==> prefix[j] == tags[j];
    }
  }

  // ---- The release tag -------------------------------------------------------

  /** The digest of the first tag named `release`, if there is one. */
  function ReleaseDigest(tags: seq<Tag>): (d: Option<string>)
    ensures (forall i :: 0 <= i < |tags| ==> tags[i].name != ReleaseTag) ==> d.None?
    ensures d.Some? ==> exists i :: 0 <= i < |tags| && tags[i].name == ReleaseTag && tags[i].digest == d
                          && (forall j :: 0 <= j < i ==> tags[j].name != ReleaseTag)
    decreases |tags|
  {
    if |tags| == 0 then None
    else if tags[0].name == ReleaseTag then tags[0].digest
    else
      var d := ReleaseDigest(tags[1..]);
      assert forall i :: 0 <= i < |tags| - 1 ==> tags[1..][i] == tags[i + 1];
      d
  }

  /** The stored spellings of the numeric tags carrying digest `d`, in tag order. */
  function Candidates(tags: seq<Tag>, reps: seq<string>, d: string, key: string -> seq<nat>): seq<string>
    decreases |tags|
  {
    if |tags| == 0 then []
    else
      var prev := Candidates(tags[..|tags| - 1], reps, d, key);
      var t := tags[|tags| - 1];
      if t.digest == Some(d) && IsVersion(t.name) then
        var i := KeyIndex(reps, key(t.name), key);
        if i < |reps| then prev + [reps[i]] else prev
      else prev
  }

  /** A tag with digest `d` whose key is stored. */
  ghost predicate Matching(tags: seq<Tag>, reps: seq<string>, d: string, key: string -> seq<nat>, j: int) {
    0 <= j < |tags| && tags[j].digest == Some(d) && IsVersion(tags[j].name)
    && KeyIndex(reps, key(tags[j].name), key) < |reps|
  }

  /** Each candidate is a stored spelling of some matching tag's key. */
  lemma {:induction false} CandidatesAreStored(tags: seq<Tag>, reps: seq<string>, d: string,
                                               key: string -> seq<nat>)
    ensures forall c :: c in Candidates(tags, reps, d, key) ==>
      c in reps && exists j :: Matching(tags, reps, d, key, j) && key(c) == key(tags[j].name)
    decreases |tags|
  {
    if |tags| > 0 {
      var prefix := tags[..|tags| - 1];
      CandidatesAreStored(prefix, reps, d, key);
      assert forall j :: 0 <= j < |prefix| ==> prefix[j] == tags[j];
      assert forall j :: Matching(prefix, reps, d, key, j) ==> Matching(tags, reps, d, key, j);
    }
  }

  /** Each matching tag contributes its stored spelling. */
  lemma {:induction false} MatchingAreCandidates(tags: seq<Tag>, reps: seq<string>, d: string,
                                                 key: string -> seq<nat>)
    ensures forall j :: Matching(tags, reps, d, key, j) ==>
      reps[KeyIndex(reps, key(tags[j].name), key)] in Candidates(tags, reps, d, key)
    decreases |tags|
  {
    if |tags| > 0 {
      var prefix := tags[..|tags| - 1];
      MatchingAreCandidates(prefix, reps, d, key);
      assert forall j :: 0 <= j < |prefix| ==> prefix[j] == tags[j];
      assert forall j :: 0 <= j < |prefix| && Matching(tags, reps, d, key, j) ==> Matching(prefix, reps, d, key, j);
    }
  }

  /** The candidates are exactly the stored spellings of the matching tags. */
  lemma CandidatesOfMatching(tags: seq<Tag>, reps: seq<string>, d: string, key: string -> seq<nat>)
    ensures forall c :: c in Candidates(tags, reps, d, key) ==>
      c in reps && exists j :: Matching(tags, reps, d, key, j) && key(c) == key(tags[j].name)
    ensures forall j :: Matching(tags, reps, d, key, j) ==>
      reps[KeyIndex(reps, key(tags[j].name), key)] in Candidates(tags, reps, d, key)
    ensures Candidates(tags, reps, d, key) == [] <==> forall j :: !Matching(tags, reps, d, key, j)
  {
    CandidatesAreStored(tags, reps, d, key);
    MatchingAreCandidates(tags, reps, d, key);
    var cs := Candidates(tags, reps, d, key);
    if cs != [] {
      assert cs[0] in cs;
    }
  }

  /** The first of the longest strings: a later one wins only when strictly longer. */
  function FirstLongest(s: seq<string>): Option<string>
    decreases |s|
  {
    if |s| == 0 then None
    else
      var best := FirstLongest(s[..|s| - 1]);
      var last := s[|s| - 1];
      if best.None? || |last| > |best.value| then Some(last) else best
  }

  /** `s[j]` is longer than every element before it. */
  ghost predicate FirstLongestAt(s: seq<string>, j: int) {
    0 <= j < |s| && forall i :: 0 <= i < j ==> |s[i]| < |s[j]|
  }

  lemma {:induction false} FirstLongestIsFirstMaximum(s: seq<string>)
    ensures FirstLongest(s).None? <==> |s| == 0
    ensures FirstLongest(s).Some? ==> forall i :: 0 <= i < |s| ==> |s[i]| <= |FirstLongest(s).value|
    ensures FirstLongest(s).Some? ==> exists j :: FirstLongestAt(s, j) && s[j] == FirstLongest(s).value
    decreases |s|
  {
    if |s| > 0 {
      var prefix := s[..|s| - 1];
      FirstLongestIsFirstMaximum(prefix);
      assert forall i :: 0 <= i < |s| - 1 ==> prefix[i] == s[i];
      var best := FirstLongest(prefix);
      if best.Some? && !(|s[|s| - 1]| > |best.value|) {
        var j :| FirstLongestAt(prefix, j) && prefix[j] == best.value;
        assert s[j] == best.value && FirstLongestAt(s, j);
      }
    }
  }

  // ---- Majors ----------------------------------------------------------------

  /** The keys of the `majors` dict, in insertion order. */
  function MajorsInOrder(s: seq<string>): (ms: seq<nat>)
    ensures forall i, j :: 0 <= i < j < |ms| ==> ms[i] != ms[j]
    ensures forall m :: m in ms <==> exists k :: 0 <= k < |s| && Major(s[k]) == m
    decreases |s|
  {
    if |s| == 0 then []
    else
      var prev := MajorsInOrder(s[..|s| - 1]);
      var m := Major(s[|s| - 1]);
      assert forall k :: 0 <= k < |s| - 1 ==> s[..|s| - 1][k] == s[k];
      if m in prev then prev else prev + [m]
  }

  /** Inserts `x` in front of the first entry it is not smaller than. */
  function InsertNat(x: nat, s: seq<nat>): (r: seq<nat>)
    ensures multiset(r) == multiset(s) + multiset{x}
    decreases |s|
  {
    if |s| == 0 then [x]
    else if x >= s[0] then [x] + s
    else
      assert s == [s[0]] + s[1..];
      [s[0]] + InsertNat(x, s[1..])
  }

  /** `sorted(ms, reverse=True)` */
  function SortNatDescending(s: seq<nat>): (r: seq<nat>)
    ensures multiset(r) == multiset(s)
    decreases |s|
  {
    if |s| == 0 then []
    else
      assert s == [s[0]] + s[1..];
      InsertNat(s[0], SortNatDescending(s[1..]))
  }

  predicate StrictlyDecreasing(s: seq<nat>) {
    forall i, j :: 0 <= i < j < |s| ==> s[j] < s[i]
  }

  lemma {:induction false} InsertNatDecreasing(x: nat, s: seq<nat>)
    requires StrictlyDecreasing(s) && x !in s
    ensures StrictlyDecreasing(InsertNat(x, s))
    decreases |s|
  {
    if |s| > 0 && x < s[0] {
      var tail := InsertNat(x, s[1..]);
      assert forall k :: 0 <= k < |s[1..]| ==> s[1..][k] == s[k + 1];
      InsertNatDecreasing(x, s[1..]);
      forall j | 0 <= j < |tail| ensures tail[j] < s[0] {
        assert tail[j] in multiset(tail);
      }
    }
  }

  /** Distinct majors sort into a strictly decreasing list. */
  lemma {:induction false} SortNatDecreasing(s: seq<nat>)
    requires forall i, j :: 0 <= i < j < |s| ==> s[i] != s[j]
    ensures StrictlyDecreasing(SortNatDescending(s))
    decreases |s|
  {
    if |s| > 0 {
      var rest := SortNatDescending(s[1..]);
      SortNatDecreasing(s[1..]);
      assert s[0] !in rest by {
        assert s[0] !in multiset(s[1..]);
      }
      InsertNatDecreasing(s[0], rest);
    }
  }

  /** `xs[:n]` */
  function Take<T>(xs: seq<T>, n: nat): (r: seq<T>)
    ensures |r| <= n && |r| <= |xs|
    ensures r == xs[..|r|]
    ensures |xs| > 0 && n > 0 ==> |r| > 0
  {
    if |xs| <= n then xs else xs[..n]
  }

  /** `majors[m]`: the versions of major `m`, in order. */
  function Group(s: seq<string>, m: nat): (g: seq<string>)
    ensures forall i :: 0 <= i < |g| ==> Major(g[i]) == m && g[i] in s
    decreases |s|
  {
    if |s| == 0 then []
    else
      var prev := Group(s[..|s| - 1], m);
      if Major(s[|s| - 1]) == m then prev + [s[|s| - 1]] else prev
  }

  /** The three newest majors. */
  function TopMajors(sorted: seq<string>): seq<nat> {
    Take(SortNatDescending(MajorsInOrder(sorted)), MaxMajors)
  }

  /** `final_list`: up to five versions of each chosen major, major by major. */
  function Assemble(s: seq<string>, top: seq<nat>): seq<string>
    decreases |top|
  {
    if |top| == 0 then [] else Take(Group(s, top[0]), PerMajor) + Assemble(s, top[1..])
  }

  /** The second pass: the stable candidate the release digest points at. */
  function ReleasePick(tags: seq<Tag>, reps: seq<string>, key: string -> seq<nat>): Option<string> {
    var digest := ReleaseDigest(tags);
    if Truthy(digest) then FirstLongest(Candidates(tags, reps, digest.value, key)) else None
  }

  /** `_filter_and_sort_versions` */
  function FilterAndSort(tags: seq<Tag>): Selection {
    var reps := Dedupe(tags, Key);
    var picked := ReleasePick(tags, reps, Key);
    if |reps| == 0 then Selection([], None)
    else
      var sorted := SortDescending(reps);
      var stable := if Truthy(picked) then picked else Some(sorted[0]);
      Selection(Assemble(sorted, TopMajors(sorted)), stable)
  }

  // ---- Properties of the grouping --------------------------------------------

  lemma {:induction false} GroupDescending(s: seq<string>, m: nat)
    requires StrictlyDescending(s)
    ensures StrictlyDescending(Group(s, m))
    decreases |s|
  {
    if |s| > 0 {
      var prefix := s[..|s| - 1];
      var g := Group(prefix, m);
      assert StrictlyDescending(prefix) by {
        assert forall k :: 0 <= k < |prefix| ==> prefix[k] == s[k];
      }
      GroupDescending(prefix, m);
      if Major(s[|s| - 1]) == m {
        forall i | 0 <= i < |g| ensures Below(s[|s| - 1], g[i]) {
          var k :| 0 <= k < |prefix| && prefix[k] == g[i];
          assert s[k] == g[i];
        }
      }
    }
  }

  lemma {:induction false} GroupConcat(a: seq<string>, b: seq<string>, m: nat)
    ensures Group(a + b, m) == Group(a, m) + Group(b, m)
    decreases |b|
  {
    if |b| == 0 {
      assert a + b == a;
    } else {
      var b' := b[..|b| - 1];
      GroupConcat(a, b', m);
      assert (a + b)[..|a + b| - 1] == a + b';
    }
  }

  /** Grouping a list of one major by that major keeps it whole; by another, empties it. */
  lemma {:induction false} GroupUniform(x: seq<string>, m: nat, m': nat)
    requires forall i :: 0 <= i < |x| ==> Major(x[i]) == m'
    ensures Group(x, m) == if m == m' then x else []
    decreases |x|
  {
    if |x| > 0 {
      GroupUniform(x[..|x| - 1], m, m');
      assert x[..|x| - 1] + [x[|x| - 1]] == x;
    }
  }

  /** The first version of a major heads that major's group. */
  lemma {:induction false} GroupHasFirst(s: seq<string>, k: int)
    requires 0 <= k < |s|
    requires forall i :: 0 <= i < k ==> Major(s[i]) != Major(s[k])
    ensures Group(s, Major(s[k])) != [] && Group(s, Major(s[k]))[0] == s[k]
    decreases |s|
  {
    var prefix := s[..|s| - 1];
    assert forall i :: 0 <= i < |prefix| ==> prefix[i] == s[i];
    if k < |s| - 1 {
      GroupHasFirst(prefix, k);
    } else {
      var g := Group(prefix, Major(s[k]));
      if g != [] {
        assert g[0] in prefix;
      }
    }
  }

  /** Every offered version comes from the list and belongs to a chosen major. */
  lemma {:induction false} AssembleMembers(s: seq<string>, top: seq<nat>)
    ensures forall i :: 0 <= i < |Assemble(s, top)| ==>
      Assemble(s, top)[i] in s && Major(Assemble(s, top)[i]) in top
    decreases |top|
  {
    if |top| > 0 {
      AssembleMembers(s, top[1..]);
      var g := Group(s, top[0]);
      var head := Take(g, PerMajor);
      var rest := Assemble(s, top[1..]);
      var a := Assemble(s, top);
      assert a == head + rest;
      forall i | 0 <= i < |a| ensures a[i] in s && Major(a[i]) in top {
        if i < |head| {
          assert a[i] == g[i];
        } else {
          assert a[i] == rest[i - |head|];
          assert Major(rest[i - |head|]) in top[1..];
        }
      }
    }
  }

  /** Each chosen major contributes at most five versions. */
  lemma {:induction false} AssembleLength(s: seq<string>, top: seq<nat>)
    ensures |Assemble(s, top)| <= PerMajor * |top|
    decreases |top|
  {
    if |top| > 0 {
      AssembleLength(s, top[1..]);
    }
  }

  lemma {:induction false} AssembleDescending(s: seq<string>, top: seq<nat>)
    requires StrictlyDescending(s) && StrictlyDecreasing(top)
    ensures StrictlyDescending(Assemble(s, top))
    decreases |top|
  {
    if |top| > 0 {
      var head := Take(Group(s, top[0]), PerMajor);
      var rest := Assemble(s, top[1..]);
      GroupDescending(s, top[0]);
      AssembleDescending(s, top[1..]);
      AssembleMembers(s, top[1..]);
      var a := head + rest;
      forall i, j | 0 <= i < j < |a| ensures Below(a[j], a[i]) {
        if j < |head| {
          assert a[i] == Group(s, top[0])[i] && a[j] == Group(s, top[0])[j];
        } else if i >= |head| {
          assert a[i] == rest[i - |head|] && a[j] == rest[j - |head|];
        } else {
          assert a[i] == Group(s, top[0])[i];
          assert a[j] == rest[j - |head|];
          var p :| 0 <= p < |top[1..]| && top[1..][p] == Major(a[j]);
          assert Major(a[j]) < Major(a[i]);
          MajorDecides(Components(a[j]), Components(a[i]));
        }
      }
    }
  }

  /** Regrouping the output by a major gives back what that major contributed. */
  lemma {:induction false} GroupOfAssemble(s: seq<string>, top: seq<nat>, m: nat)
    requires forall i, j :: 0 <= i < j < |top| ==> top[i] != top[j]
    ensures Group(Assemble(s, top), m) == if m in top then Take(Group(s, m), PerMajor) else []
    decreases |top|
  {
    if |top| > 0 {
      var head := Take(Group(s, top[0]), PerMajor);
      GroupOfAssemble(s, top[1..], m);
      GroupConcat(head, Assemble(s, top[1..]), m);
      GroupUniform(head, m, top[0]);
      if m == top[0] {
        assert m !in top[1..];
      } else {
        assert m in top <==> m in top[1..];
      }
    }
  }

  /** A list without repeats inside another list is no longer than it. */
  lemma {:induction false} DistinctWithin(a: seq<nat>, b: seq<nat>)
    requires forall i, j :: 0 <= i < j < |a| ==> a[i] != a[j]
    requires forall x :: x in a ==> x in b
    ensures |a| <= |b|
    decreases |a|
  {
    if |a| > 0 {
      assert a[0] in a;
      var p :| 0 <= p < |b| && b[p] == a[0];
      var b' := b[..p] + b[p + 1..];
      forall x | x in a[1..] ensures x in b' {
        var i :| 0 <= i < |a[1..]| && a[1..][i] == x;
        assert a[i + 1] == x && x != a[0];
        assert x in a;
        var q :| 0 <= q < |b| && b[q] == x;
        if q < p {
          assert b'[q] == x;
        } else {
          assert b'[q - 1] == x;
        }
      }
      DistinctWithin(a[1..], b');
    }
  }

  lemma {:induction false} GroupContains(s: seq<string>, k: int)
    requires 0 <= k < |s|
    ensures s[k] in Group(s, Major(s[k]))
    decreases |s|
  {
    var prefix := s[..|s| - 1];
    if k < |s| - 1 {
      assert prefix[k] == s[k];
      GroupContains(prefix, k);
    }
  }

  // ---- The selection ---------------------------------------------------------

  /** No tag name parses as a version. */
  predicate NoNumericTag(tags: seq<Tag>) {
    forall i :: 0 <= i < |tags| ==> !IsVersion(tags[i].name)
  }

  /** The first pass stores something exactly when some tag is numeric. */
  lemma DedupeEmptyIffNoNumeric(tags: seq<Tag>)
    ensures Dedupe(tags, Key) == [] <==> NoNumericTag(tags)
  {
    var reps := Dedupe(tags, Key);
    DedupeDeduped(tags, Key);
    if !NoNumericTag(tags) {
      var j :| 0 <= j < |tags| && IsVersion(tags[j].name);
      SpellingsOfTags(tags, Key(tags[j].name), Key);
      assert HasKey(reps, Key(tags[j].name), Key);
    }
    if reps != [] {
      var sp := Spellings(tags, Key(reps[0]), Key);
      FirstShortestIsFirstMinimum(sp);
      SpellingsOfTags(tags, Key(reps[0]), Key);
      assert sp[0] in sp;
    }
  }

  /** The deduplicated versions sort strictly newest first. */
  lemma SortedRepsDescending(tags: seq<Tag>)
    ensures StrictlyDescending(SortDescending(Dedupe(tags, Key)))
  {
    var reps := Dedupe(tags, Key);
    DedupeDeduped(tags, Key);
    forall i, j | 0 <= i < j < |reps| ensures Components(reps[i]) != Components(reps[j]) {
      KeyFollowsComponents(reps[i], reps[j]);
    }
    SortStrictlyDescending(reps);
  }

  lemma TopMajorsDecreasing(sorted: seq<string>)
    ensures StrictlyDecreasing(TopMajors(sorted)) && |TopMajors(sorted)| <= MaxMajors
  {
    SortNatDecreasing(MajorsInOrder(sorted));
  }

  /** Offered versions are numeric tags, strictly newest first, no two with the
      same key, each the first of the shortest spellings of its key. */
  lemma OfferedVersionsOrdered(tags: seq<Tag>)
    ensures var r := FilterAndSort(tags);
      && StrictlyDescending(r.versions)
      && DistinctKeys(r.versions, Key)
      && (forall i :: 0 <= i < |r.versions| ==>
            FirstShortest(Spellings(tags, Key(r.versions[i]), Key)) == Some(r.versions[i]))
      && (forall i :: 0 <= i < |r.versions| ==> exists j :: 0 <= j < |tags| && tags[j].name == r.versions[i])
      && (forall i :: 0 <= i < |r.versions| ==> IsVersion(r.versions[i]))
  {
    var reps := Dedupe(tags, Key);
    var r := FilterAndSort(tags);
    if reps != [] {
      var sorted := SortDescending(reps);
      var top := TopMajors(sorted);
      SortedRepsDescending(tags);
      TopMajorsDecreasing(sorted);
      AssembleDescending(sorted, top);
      AssembleMembers(sorted, top);
      DedupeDeduped(tags, Key);
      assert r.versions == Assemble(sorted, top);
      assert forall i :: 0 <= i < |r.versions| ==> r.versions[i] in reps by {
        forall i | 0 <= i < |r.versions| ensures r.versions[i] in reps {
          assert r.versions[i] in multiset(sorted);
        }
      }
      RepsComeFromTags(tags, reps, r.versions);
      forall i, j | 0 <= i < j < |r.versions| ensures Key(r.versions[i]) != Key(r.versions[j]) {
        var p :| 0 <= p < |reps| && reps[p] == r.versions[i];
        var q :| 0 <= q < |reps| && reps[q] == r.versions[j];
        if p == q {
          LexIrreflexive(Components(r.versions[i]));
        }
      }
    }
  }

  /** Stored spellings are the first shortest of their key and name some tag. */
  lemma RepsComeFromTags(tags: seq<Tag>, reps: seq<string>, out: seq<string>)
    requires RepsShortest(tags, reps, Key)
    requires forall i :: 0 <= i < |out| ==> out[i] in reps
    ensures forall i :: 0 <= i < |out| ==> FirstShortest(Spellings(tags, Key(out[i]), Key)) == Some(out[i])
    ensures forall i :: 0 <= i < |out| ==> exists j :: 0 <= j < |tags| && tags[j].name == out[i]
    ensures forall i :: 0 <= i < |out| ==> IsVersion(out[i])
  {
    forall i | 0 <= i < |out|
      ensures FirstShortest(Spellings(tags, Key(out[i]), Key)) == Some(out[i])
      ensures exists j :: 0 <= j < |tags| && tags[j].name == out[i]
      ensures IsVersion(out[i])
    {
      var p :| 0 <= p < |reps| && reps[p] == out[i];
      var sp := Spellings(tags, Key(out[i]), Key);
      FirstShortestIsFirstMinimum(sp);
      SpellingsOfTags(tags, Key(out[i]), Key);
      var k :| FirstShortestAt(sp, k) && sp[k] == out[i];
      assert out[i] in sp;
    }
  }

  /** At most three majors, at most five versions each, at most fifteen in all. */
  lemma OfferedVersionsBounded(tags: seq<Tag>)
    ensures var r := FilterAndSort(tags);
      && |MajorsInOrder(r.versions)| <= MaxMajors
      && (forall m :: |Group(r.versions, m)| <= PerMajor)
      && |r.versions| <= MaxMajors * PerMajor
  {
    var reps := Dedupe(tags, Key);
    var r := FilterAndSort(tags);
    if reps != [] {
      var sorted := SortDescending(reps);
      var top := TopMajors(sorted);
      TopMajorsDecreasing(sorted);
      AssembleMembers(sorted, top);
      AssembleLength(sorted, top);
      var ms := MajorsInOrder(r.versions);
      forall x | x in ms ensures x in top {
        var k :| 0 <= k < |r.versions| && Major(r.versions[k]) == x;
      }
      DistinctWithin(ms, top);
      forall m ensures |Group(r.versions, m)| <= PerMajor {
        GroupOfAssemble(sorted, top, m);
      }
    }
  }

  /** Completeness of the offer: the chosen majors are the (up to) three
      greatest majors among the deduplicated versions, and each of them
      offers exactly its first five versions of the newest-first list; no
      other major offers anything. */
  lemma OfferedVersionsComplete(tags: seq<Tag>)
    ensures var sorted := SortDescending(Dedupe(tags, Key));
            var majors := MajorsInOrder(sorted);
            var top := TopMajors(sorted);
            var r := FilterAndSort(tags);
      && (forall m :: Group(r.versions, m) == if m in top then Take(Group(sorted, m), PerMajor) else [])
      && (forall m :: m in top ==> m in majors)
      && |top| == (if |majors| < MaxMajors then |majors| else MaxMajors)
      && (forall m, m' :: m in top && m' in majors && m' !in top ==> m' < m)
  {
    var reps := Dedupe(tags, Key);
    var sorted := SortDescending(reps);
    var top := TopMajors(sorted);
    var r := FilterAndSort(tags);
    if reps == [] {
      assert sorted == [] by {
        assert |multiset(sorted)| == 0;
      }
      assert top == [];
    } else {
      TopMajorsDecreasing(sorted);
      forall m ensures Group(r.versions, m) == if m in top then Take(Group(sorted, m), PerMajor) else [] {
        GroupOfAssemble(sorted, top, m);
      }
    }
    TopAreGreatest(sorted);
  }

  /** The chosen majors are the (up to) three greatest that occur. */
  lemma TopAreGreatest(sorted: seq<string>)
    ensures var majors := MajorsInOrder(sorted);
            var top := TopMajors(sorted);
      && (forall m :: m in top ==> m in majors)
      && |top| == (if |majors| < MaxMajors then |majors| else MaxMajors)
      && (forall m, m' :: m in top && m' in majors && m' !in top ==> m' < m)
  {
    var majors := MajorsInOrder(sorted);
    var ns := SortNatDescending(majors);
    var top := TopMajors(sorted);
    assert |ns| == |majors| by {
      assert |multiset(ns)| == |multiset(majors)|;
    }
    SortNatDecreasing(majors);
    forall m | m in ns ensures m in majors {
      assert m in multiset(ns);
    }
    forall m | m in majors ensures m in ns {
      assert m in multiset(majors);
    }
    forall m, m' | m in top && m' in majors && m' !in top ensures m' < m {
      var q :| 0 <= q < |top| && top[q] == m;
      var p :| 0 <= p < |ns| && ns[p] == m';
      assert top == ns[..|top|];
      assert p >= |top|;
    }
  }

  /** With no numeric tag nothing is offered and there is no stable version;
      otherwise something is offered and a stable version is named. */
  lemma EmptySelectionIffNoNumeric(tags: seq<Tag>)
    ensures var r := FilterAndSort(tags);
      && (r.versions == [] <==> NoNumericTag(tags))
      && (r.stable.None? <==> NoNumericTag(tags))
  {
    var reps := Dedupe(tags, Key);
    DedupeEmptyIffNoNumeric(tags);
    if reps != [] {
      var sorted := SortDescending(reps);
      assert |sorted| > 0 by {
        assert |multiset(sorted)| == |multiset(reps)|;
      }
      var ms := MajorsInOrder(sorted);
      assert Major(sorted[0]) in ms;
      var top := TopMajors(sorted);
      assert |SortNatDescending(ms)| > 0 by {
        assert |multiset(SortNatDescending(ms))| == |multiset(ms)|;
      }
      assert top[0] in ms by {
        assert top[0] in multiset(SortNatDescending(ms));
      }
      var k :| 0 <= k < |sorted| && Major(sorted[k]) == top[0];
      GroupContains(sorted, k);
      assert Assemble(sorted, top) != [];
    }
  }

  /** When the release tag gives nothing to go by, the stable version is the
      newest deduplicated version, and it is offered first. */
  lemma StableIsNewestWithoutRelease(tags: seq<Tag>)
    requires !NoNumericTag(tags)
    requires !Truthy(ReleaseDigest(tags))
             || forall j :: 0 <= j < |tags| && IsVersion(tags[j].name) ==> tags[j].digest != ReleaseDigest(tags)
    ensures var r := FilterAndSort(tags);
      && r.versions != []
      && r.stable == Some(r.versions[0])
      && forall v :: v in Dedupe(tags, Key) && v != r.versions[0] ==> Below(v, r.versions[0])
  {
    var reps := Dedupe(tags, Key);
    DedupeEmptyIffNoNumeric(tags);
    NoReleasePick(tags);
    var sorted := SortDescending(reps);
    SortedRepsDescending(tags);
    NewestLeads(sorted);
    NewestIsGreatest(reps);
  }

  /** Without a numeric tag carrying the release digest there is no pick. */
  lemma NoReleasePick(tags: seq<Tag>)
    requires !Truthy(ReleaseDigest(tags))
             || forall j :: 0 <= j < |tags| && IsVersion(tags[j].name) ==> tags[j].digest != ReleaseDigest(tags)
    ensures ReleasePick(tags, Dedupe(tags, Key), Key) == None
  {
    var reps := Dedupe(tags, Key);
    var digest := ReleaseDigest(tags);
    if Truthy(digest) {
      CandidatesOfMatching(tags, reps, digest.value, Key);
      assert Candidates(tags, reps, digest.value, Key) == [];
    }
  }

  /** The head of the sorted list is above every other stored version. */
  lemma NewestIsGreatest(reps: seq<string>)
    requires reps != [] && StrictlyDescending(SortDescending(reps))
    ensures forall v :: v in reps && v != SortDescending(reps)[0] ==> Below(v, SortDescending(reps)[0])
  {
    var sorted := SortDescending(reps);
    forall v | v in reps && v != sorted[0] ensures Below(v, sorted[0]) {
      assert v in multiset(sorted);
      var k :| 0 <= k < |sorted| && sorted[k] == v;
    }
  }

  /** In a strictly descending list the first element leads the output. */
  lemma NewestLeads(sorted: seq<string>)
    requires sorted != [] && StrictlyDescending(sorted)
    ensures Assemble(sorted, TopMajors(sorted)) != []
    ensures Assemble(sorted, TopMajors(sorted))[0] == sorted[0]
  {
    var top := TopMajors(sorted);
    NewestMajorFirst(sorted);
    GroupHasFirst(sorted, 0);
    assert Assemble(sorted, top) == Take(Group(sorted, top[0]), PerMajor) + Assemble(sorted, top[1..]);
  }

  /** The first element's major is the greatest, so it heads the chosen majors. */
  lemma NewestMajorFirst(sorted: seq<string>)
    requires sorted != [] && StrictlyDescending(sorted)
    ensures TopMajors(sorted) != [] && TopMajors(sorted)[0] == Major(sorted[0])
  {
    var ms := MajorsInOrder(sorted);
    forall x | x in ms ensures x <= Major(sorted[0]) {
      var k :| 0 <= k < |sorted| && Major(sorted[k]) == x;
      MajorBound(sorted, k);
    }
    assert Major(sorted[0]) in ms;
    SortedHeadIsMax(ms, Major(sorted[0]));
  }

  lemma MajorBound(sorted: seq<string>, k: int)
    requires 0 <= k < |sorted| && StrictlyDescending(sorted)
    ensures Major(sorted[k]) <= Major(sorted[0])
  {
    if k > 0 {
      assert Below(sorted[k], sorted[0]);
    }
  }

  /** Sorting puts the maximum first. */
  lemma SortedHeadIsMax(ms: seq<nat>, m: nat)
    requires forall i, j :: 0 <= i < j < |ms| ==> ms[i] != ms[j]
    requires m in ms && forall x :: x in ms ==> x <= m
    ensures SortNatDescending(ms) != [] && SortNatDescending(ms)[0] == m
    ensures Take(SortNatDescending(ms), MaxMajors)[0] == m
  {
    var ns := SortNatDescending(ms);
    SortNatDecreasing(ms);
    assert m in ns by {
      assert m in multiset(ms);
    }
    assert ns[0] in ms by {
      assert ns[0] in multiset(ns);
    }
    var p :| 0 <= p < |ns| && ns[p] == m;
  }

  /** With a release digest shared by numeric tags, the stable version is the
      longest stored spelling among those tags' keys (the first such in tag order). */
  lemma StableFollowsRelease(tags: seq<Tag>)
    requires Truthy(ReleaseDigest(tags))
    requires exists j :: 0 <= j < |tags| && IsVersion(tags[j].name) && tags[j].digest == ReleaseDigest(tags)
    ensures var r := FilterAndSort(tags);
      var d := ReleaseDigest(tags).value;
      && r.stable.Some?
      && (exists j :: 0 <= j < |tags| && IsVersion(tags[j].name) && tags[j].digest == Some(d)
            && FirstShortest(Spellings(tags, Key(tags[j].name), Key)) == r.stable)
      && (forall j :: 0 <= j < |tags| && IsVersion(tags[j].name) && tags[j].digest == Some(d) ==>
            FirstShortest(Spellings(tags, Key(tags[j].name), Key)).Some?
            && |FirstShortest(Spellings(tags, Key(tags[j].name), Key)).value| <= |r.stable.value|)
  {
    var reps := Dedupe(tags, Key);
    DedupeDeduped(tags, Key);
    DedupeEmptyIffNoNumeric(tags);
    ReleasePickIsLongest(tags, reps, Key);
    var pick := ReleasePick(tags, reps, Key);
    VersionNonEmpty(pick.value);
    assert FilterAndSort(tags).stable == pick;
  }

  lemma VersionNonEmpty(v: string)
    ensures IsVersion(v) ==> v != ""
  {
    assert Body("") == "";
    assert Split("", '.') == [""];
  }

  /** The release pick, for any deduplicated list: the stored spelling of a
      matching tag's key, at least as long as every other such spelling. */
  lemma ReleasePickIsLongest(tags: seq<Tag>, reps: seq<string>, key: string -> seq<nat>)
    requires Deduped(tags, reps, key)
    requires Truthy(ReleaseDigest(tags))
    requires exists j :: 0 <= j < |tags| && IsVersion(tags[j].name) && tags[j].digest == ReleaseDigest(tags)
    ensures var pick := ReleasePick(tags, reps, key);
      var d := ReleaseDigest(tags).value;
      && pick.Some? && IsVersion(pick.value)
      && (exists j :: 0 <= j < |tags| && IsVersion(tags[j].name) && tags[j].digest == Some(d)
            && FirstShortest(Spellings(tags, key(tags[j].name), key)) == pick)
      && (forall j :: 0 <= j < |tags| && IsVersion(tags[j].name) && tags[j].digest == Some(d) ==>
            FirstShortest(Spellings(tags, key(tags[j].name), key)).Some?
            && |FirstShortest(Spellings(tags, key(tags[j].name), key)).value| <= |pick.value|)
  {
    var d := ReleaseDigest(tags).value;
    var cs := Candidates(tags, reps, d, key);
    var j0 :| 0 <= j0 < |tags| && IsVersion(tags[j0].name) && tags[j0].digest == ReleaseDigest(tags);
    CoveredKeyIndex(tags, reps, key);
    CandidatesOfMatching(tags, reps, d, key);
    assert Matching(tags, reps, d, key, j0);
    FirstLongestIsFirstMaximum(cs);
    PickIsStoredSpelling(tags, reps, d, key);
    PickIsLongest(tags, reps, d, key);
  }

  lemma PickIsStoredSpelling(tags: seq<Tag>, reps: seq<string>, d: string, key: string -> seq<nat>)
    requires RepsShortest(tags, reps, key)
    requires FirstLongest(Candidates(tags, reps, d, key)).Some?
    ensures var best := FirstLongest(Candidates(tags, reps, d, key));
      && IsVersion(best.value)
      && exists j :: 0 <= j < |tags| && IsVersion(tags[j].name) && tags[j].digest == Some(d)
           && FirstShortest(Spellings(tags, key(tags[j].name), key)) == best
  {
    var cs := Candidates(tags, reps, d, key);
    FirstLongestIsFirstMaximum(cs);
    CandidatesAreStored(tags, reps, d, key);
    var best := FirstLongest(cs).value;
    var b :| FirstLongestAt(cs, b) && cs[b] == best;
    assert best in cs;
    var jb :| Matching(tags, reps, d, key, jb) && key(best) == key(tags[jb].name);
    var p :| 0 <= p < |reps| && reps[p] == best;
    RepsAreVersions(tags, reps, key, p);
  }

  lemma PickIsLongest(tags: seq<Tag>, reps: seq<string>, d: string, key: string -> seq<nat>)
    requires RepsShortest(tags, reps, key)
    requires forall j :: 0 <= j < |tags| && IsVersion(tags[j].name) ==> KeyIndex(reps, key(tags[j].name), key) < |reps|
    requires FirstLongest(Candidates(tags, reps, d, key)).Some?
    ensures forall j :: 0 <= j < |tags| && IsVersion(tags[j].name) && tags[j].digest == Some(d) ==>
      FirstShortest(Spellings(tags, key(tags[j].name), key)).Some?
      && |FirstShortest(Spellings(tags, key(tags[j].name), key)).value|
        <= |FirstLongest(Candidates(tags, reps, d, key)).value|
  {
    var cs := Candidates(tags, reps, d, key);
    FirstLongestIsFirstMaximum(cs);
    MatchingAreCandidates(tags, reps, d, key);
    forall j | 0 <= j < |tags| && IsVersion(tags[j].name) && tags[j].digest == Some(d)
      ensures FirstShortest(Spellings(tags, key(tags[j].name), key)).Some?
      ensures |FirstShortest(Spellings(tags, key(tags[j].name), key)).value| <= |FirstLongest(cs).value|
    {
      assert Matching(tags, reps, d, key, j);
      var i := KeyIndex(reps, key(tags[j].name), key);
      assert key(reps[i]) == key(tags[j].name);
      assert FirstShortest(Spellings(tags, key(reps[i]), key)) == Some(reps[i]);
      assert reps[i] in cs;
      var q :| 0 <= q < |cs| && cs[q] == reps[i];
      assert |cs[q]| <= |FirstLongest(cs).value|;
    }
  }

  /** Stored spellings are numeric tag names. */
  lemma RepsAreVersions(tags: seq<Tag>, reps: seq<string>, key: string -> seq<nat>, p: int)
    requires RepsShortest(tags, reps, key) && 0 <= p < |reps|
    ensures IsVersion(reps[p]) && exists j :: 0 <= j < |tags| && tags[j].name == reps[p]
  {
    var sp := Spellings(tags, key(reps[p]), key);
    FirstShortestIsFirstMinimum(sp);
    SpellingsOfTags(tags, key(reps[p]), key);
    var k :| FirstShortestAt(sp, k) && sp[k] == reps[p];
    assert reps[p] in sp;
  }

  /** Every numeric tag's key is stored. */
  lemma CoveredKeyIndex(tags: seq<Tag>, reps: seq<string>, key: string -> seq<nat>)
    requires CoversKeys(tags, reps, key)
    ensures forall j :: 0 <= j < |tags| && IsVersion(tags[j].name) ==> KeyIndex(reps, key(tags[j].name), key) < |reps|
  {
    forall j | 0 <= j < |tags| && IsVersion(tags[j].name) ensures KeyIndex(reps, key(tags[j].name), key) < |reps| {
      SpellingsOfTags(tags, key(tags[j].name), key);
      assert HasKey(reps, key(tags[j].name), key);
    }
  }

  /** A two-group spelling and its `.0` form share a key, so only one is kept. */
  lemma SplitSingle(d: char, c: char)
    requires d != c
    ensures Split([d], c) == [[d]]
  {
    var rest := Split([d][1..], c);
    assert [d][1..] == [] && rest == [""];
    assert [d] + rest[0] == [d] && rest[1..] == [];
  }

  lemma SplitLeading(d: char, c: char, s: string)
    requires d != c
    ensures Split([d, c] + s, c) == [[d]] + Split(s, c)
  {
    var t := [d, c] + s;
    assert t[0] == d && t[1..] == [c] + s;
    assert ([c] + s)[0] == c && ([c] + s)[1..] == s;
    var rest := Split([c] + s, c);
    assert rest == [""] + Split(s, c);
    assert [d] + rest[0] == [d] && rest[1..] == Split(s, c);
  }

  lemma ShortFormParts()
    ensures Split("1.2", '.') == ["1", "2"]
    ensures Split("1.2.0", '.') == ["1", "2", "0"]
  {
    SplitSingle('2', '.');
    SplitSingle('0', '.');
    SplitLeading('1', '.', "2");
    SplitLeading('2', '.', "0");
    SplitLeading('1', '.', "2.0");
    assert ['1', '.'] + "2" == "1.2";
    assert ['2', '.'] + "0" == "2.0";
    assert ['1', '.'] + "2.0" == "1.2.0";
  }

  lemma DigitStringsValues()
    ensures Values(["1", "2"]) == [1, 2]
    ensures Values(["1", "2", "0"]) == [1, 2, 0]
  {
    assert DecimalValue("1") == 1 && DecimalValue("2") == 2 && DecimalValue("0") == 0 by {
      assert "1"[..0] == [] && "2"[..0] == [] && "0"[..0] == [];
    }
    assert ["1", "2", "0"][1..] == ["2", "0"] && ["2", "0"][1..] == ["0"];
    assert ["1", "2"][1..] == ["2"] && ["2"][1..] == [] && ["0"][1..] == [];
  }

  /** "1.2" and "1.2.0" are different spellings of one version: both parse,
      and padding makes their keys equal, so the deduplication keeps one. */
  lemma ShortFormSharesKey()
    ensures IsVersion("1.2") && IsVersion("1.2.0")
    ensures Key("1.2") == Key("1.2.0") == [1, 2, 0]
    ensures Components("1.2") != Components("1.2.0")
  {
    ShortFormParts();
    DigitStringsValues();
    assert Body("1.2") == "1.2" && Body("1.2.0") == "1.2.0";
    assert Components("1.2") == [1, 2];
    assert Components("1.2.0") == [1, 2, 0];
    assert Pad([1, 2], 3) == Pad([1, 2, 0], 3);
  }
}
