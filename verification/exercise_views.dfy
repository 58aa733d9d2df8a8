/** The server-rendered exercise views: the name-similarity check of
    `ExerciseForm`, the muscle columns and cache key of the detail view, and
    the ordering of the exercise list. */
module ExerciseViews {
  import opened Wrappers
  import opened Entities
  import Seqs
  import Text
  import Sorting
  import PyInt

  function Min3(x: nat, y: nat, z: nat): (m: nat)
    ensures m <= x && m <= y && m <= z
    ensures m == x || m == y || m == z
  {
    if x <= y && x <= z then x else if y <= z then y else z
  }

  /** Levenshtein edit distance: the fewest single-character insertions,
      deletions and substitutions turning `a` into `b`. */
  function Lev(a: string, b: string): (r: nat)
    ensures r <= if |a| >= |b| then |a| else |b|
    decreases |a| + |b|
  {
    if |a| == 0 then |b|
    else if |b| == 0 then |a|
    else
      var cost := if a[|a| - 1] == b[|b| - 1] then 0 else 1;
      Min3(Lev(a[..|a| - 1], b) + 1, Lev(a, b[..|b| - 1]) + 1, Lev(a[..|a| - 1], b[..|b| - 1]) + cost)
  }

  /** The distance is at least the difference in length. */
  lemma {:induction false} LevLowerBound(a: string, b: string)
    ensures Lev(a, b) >= |a| - |b| && Lev(a, b) >= |b| - |a|
    decreases |a| + |b|
  {
    if |a| > 0 && |b| > 0 {
      LevLowerBound(a[..|a| - 1], b);
      LevLowerBound(a, b[..|b| - 1]);
      LevLowerBound(a[..|a| - 1], b[..|b| - 1]);
    }
  }

  lemma {:induction false} LevSelf(a: string)
    ensures Lev(a, a) == 0
    decreases |a|
  {
    if |a| > 0 {
      LevSelf(a[..|a| - 1]);
    }
  }

  /** Distance zero means equal strings, so a threshold of 1 rejects only
      exact duplicates. */
  lemma {:induction false} LevZeroIffEqual(a: string, b: string)
    ensures Lev(a, b) == 0 <==> a == b
    decreases |a| + |b|
  {
    if a == b {
      LevSelf(a);
    }
    if Lev(a, b) == 0 {
      LevLowerBound(a, b);
      if |a| > 0 {
        var a', b' := a[..|a| - 1], b[..|b| - 1];
        var cost := if a[|a| - 1] == b[|b| - 1] then 0 else 1;
        assert Lev(a, b) == Min3(Lev(a', b) + 1, Lev(a, b') + 1, Lev(a', b') + cost);
        assert Lev(a', b') == 0 && cost == 0;
        LevZeroIffEqual(a', b');
        assert a == a' + [a[|a| - 1]];
        assert b == b' + [b[|b| - 1]];
      }
    }
  }

  /** The distance does not depend on the order of its arguments. */
  lemma {:induction false} LevSymmetric(a: string, b: string)
    ensures Lev(a, b) == Lev(b, a)
    decreases |a| + |b|
  {
    if |a| > 0 && |b| > 0 {
      LevSymmetric(a[..|a| - 1], b);
      LevSymmetric(a, b[..|b| - 1]);
      LevSymmetric(a[..|a| - 1], b[..|b| - 1]);
    }
  }

  /** Helper: one step of the recurrence on prefixes. */
  lemma LevStep(a: string, b: string, i: nat, j: nat)
    requires i < |a| && j < |b|
    ensures Lev(a[..i + 1], b[..j + 1]) ==
      Min3(Lev(a[..i], b[..j + 1]) + 1, Lev(a[..i + 1], b[..j]) + 1,
           Lev(a[..i], b[..j]) + (if a[i] == b[j] then 0 else 1))
  {
    assert a[..i + 1][..i] == a[..i];
    assert b[..j + 1][..j] == b[..j];
  }

  /** Helper: the base cases of the recurrence on prefixes. */
  lemma LevEmptyPrefix(a: string, b: string, i: nat, j: nat)
    requires i <= |a| && j <= |b|
    ensures Lev(a[..0], b[..j]) == j
    ensures Lev(a[..i], b[..0]) == i
  {
  }

  /** Helper: the row of distances from `a[..i + 1]` to every prefix of `b`,
      given the row for `a[..i]`. */
  method NextRow(a: string, b: string, i: nat, prev: seq<nat>) returns (cur: seq<nat>)
    requires i < |a|
    requires |prev| == |b| + 1
    requires forall j :: 0 <= j <= |b| ==> prev[j] == Lev(a[..i], b[..j])
    ensures |cur| == |b| + 1
    ensures forall j :: 0 <= j <= |b| ==> cur[j] == Lev(a[..i + 1], b[..j])
  {
    LevEmptyPrefix(a, b, i + 1, 0);
    cur := [i + 1];
    var j := 0;
    while j < |b|
      invariant 0 <= j <= |b|
      invariant |cur| == j + 1
      invariant RowPrefix(a[..i + 1], b, cur)
    {
      LevStep(a, b, i, j);
      var cost := if a[i] == b[j] then 0 else 1;
      var next := Min3(prev[j + 1] + 1, cur[j] + 1, prev[j] + cost);
      assert next == Lev(a[..i + 1], b[..j + 1]);
      RowExtend(a[..i + 1], b, cur, next);
      cur := cur + [next];
      j := j + 1;
    }
  }

  /** `row` holds the distances from `x` to the first `|row|` prefixes of `b`. */
  predicate RowPrefix(x: string, b: string, row: seq<nat>)
  {
    |row| <= |b| + 1 && forall k :: 0 <= k < |row| ==> row[k] == Lev(x, b[..k])
  }

  /** Helper: the distance to the next prefix extends the row. */
  lemma RowExtend(x: string, b: string, row: seq<nat>, next: nat)
    requires RowPrefix(x, b, row) && |row| <= |b|
    requires next == Lev(x, b[..|row|])
    ensures RowPrefix(x, b, row + [next])
  {
    var longer := row + [next];
    forall k | 0 <= k < |longer|
      ensures longer[k] == Lev(x, b[..k])
    {
      if k < |row| {
        assert longer[k] == row[k];
      }
    }
  }

  /** The distance by dynamic programming, one row of prefixes of `a` at a
      time. The `levenshtein` helper the form calls is taken to compute this
      standard unit-cost distance; its code is not part of this model. */
  method EditDistance(a: string, b: string) returns (d: nat)
    ensures d == Lev(a, b)
  {
    var prev: seq<nat> := seq(|b| + 1, j => j);
    forall j | 0 <= j <= |b| ensures prev[j] == Lev(a[..0], b[..j]) {
      LevEmptyPrefix(a, b, 0, j);
    }
    var i := 0;
    while i < |a|
      invariant 0 <= i <= |a|
      invariant |prev| == |b| + 1
      invariant forall j :: 0 <= j <= |b| ==> prev[j] == Lev(a[..i], b[..j])
    {
      prev := NextRow(a, b, i, prev);
      i := i + 1;
    }
    assert a[..|a|] == a && b[..|b|] == b;
    d := prev[|b|];
  }

  /** An existing exercise in the current language whose case-folded name is
      closer than `threshold` to the case-folded candidate. */
  predicate TooSimilar(e: Exercise, name: string, language: nat, threshold: int)
    ensures TooSimilar(e, name, language, threshold) ==>
      e.language == language && |e.name| - |name| < threshold && |name| - |e.name| < threshold
    ensures e.language == language && Text.Lower(e.name) == Text.Lower(name) ==>
      (TooSimilar(e, name, language, threshold) <==> threshold > 0)
  {
    LevLowerBound(Text.Lower(e.name), Text.Lower(name));
    LevSelf(Text.Lower(name));
    e.language == language && Lev(Text.Lower(e.name), Text.Lower(name)) < threshold
  }

  /** Position `k` holds the first too-similar exercise. */
  predicate IsFirstTooSimilar(exercises: seq<Exercise>, k: int, name: string, language: nat, threshold: int)
  {
    && 0 <= k < |exercises|
    && TooSimilar(exercises[k], name, language, threshold)
    && forall j :: 0 <= j < k ==> !TooSimilar(exercises[j], name, language, threshold)
  }

  /** The position of the first too-similar exercise, in iteration order. */
  function FirstTooSimilar(name: string, language: nat, exercises: seq<Exercise>, threshold: int)
    : (r: Option<nat>)
    ensures r.None? <==> forall i :: 0 <= i < |exercises| ==> !TooSimilar(exercises[i], name, language, threshold)
    ensures r.Some? ==> IsFirstTooSimilar(exercises, r.value, name, language, threshold)
  {
    FirstWhere(exercises, SimilarTo(name, language, threshold))
  }

  /** `TooSimilar` as a test on exercises. */
  function SimilarTo(name: string, language: nat, threshold: int): Exercise -> bool
  {
    e => TooSimilar(e, name, language, threshold)
  }

  /** Helper: the position of the first exercise satisfying `p`. */
  function FirstWhere(s: seq<Exercise>, p: Exercise -> bool): (r: Option<nat>)
    ensures r.None? <==> forall i :: 0 <= i < |s| ==> !p(s[i])
    ensures r.Some? ==> r.value < |s| && p(s[r.value]) && forall j :: 0 <= j < r.value ==> !p(s[j])
    decreases |s|
  {
    if s == [] then None
    else if p(s[0]) then Some(0)
    else
      match FirstWhere(s[1..], p)
      case None => None
      case Some(k) => Some(k + 1)
  }

  /** Helper: the first position satisfying `p` is unique. */
  lemma FirstWhereUnique(s: seq<Exercise>, p: Exercise -> bool, k: nat)
    requires k < |s| && p(s[k]) && forall j :: 0 <= j < k ==> !p(s[j])
    ensures FirstWhere(s, p) == Some(k)
  {
    var r := FirstWhere(s, p);
    assert r.Some?;
  }

  /** A position after an insertion at `k`: positions from `k` on move up
      by one. */
  function Shifted(r: Option<nat>, k: nat): Option<nat>
  {
    match r
    case None => None
    case Some(i) => Some(if i < k then i else i + 1)
  }

  /** Helper: inserting an element that fails `p` at `k` moves a first match
      at or past `k` up by one and leaves the rest alone. */
  lemma FirstWhereInsert(s: seq<Exercise>, p: Exercise -> bool, x: Exercise, k: nat)
    requires !p(x) && k <= |s|
    ensures FirstWhere(s[..k] + [x] + s[k..], p) == Shifted(FirstWhere(s, p), k)
  {
    InsertAt(s, x, k);
    FirstWhereShift(s, s[..k] + [x] + s[k..], p, k);
  }

  /** Helper: the positions of a sequence with `x` inserted at `k`. */
  lemma InsertAt(s: seq<Exercise>, x: Exercise, k: nat)
    requires k <= |s|
    ensures |s[..k] + [x] + s[k..]| == |s| + 1 && (s[..k] + [x] + s[k..])[k] == x
    ensures forall j {:trigger (s[..k] + [x] + s[k..])[j]} :: 0 <= j < k ==> (s[..k] + [x] + s[k..])[j] == s[j]
    ensures forall j :: k < j <= |s| ==> (s[..k] + [x] + s[k..])[j] == s[j - 1]
  {
  }

  /** Helper: `FirstWhereInsert` for any `longer` that is `s` with one
      element failing `p` at `k`. */
  lemma FirstWhereShift(s: seq<Exercise>, longer: seq<Exercise>, p: Exercise -> bool, k: nat)
    requires k <= |s| && |longer| == |s| + 1 && !p(longer[k])
    requires forall j {:trigger longer[j]} :: 0 <= j < k ==> longer[j] == s[j]
    requires forall j :: k < j < |longer| ==> longer[j] == s[j - 1]
    ensures FirstWhere(longer, p) == Shifted(FirstWhere(s, p), k)
  {
    var limit := match FirstWhere(s, p) case None => |longer| case Some(i) => if i < k then i else i + 1;
    forall j | 0 <= j < limit ensures !p(longer[j]) {
      if j < k {
        assert longer[j] == s[j];
      } else if j > k {
        assert longer[j] == s[j - 1];
      }
    }
    if FirstWhere(s, p).Some? {
      var i := FirstWhere(s, p).value;
      assert longer[limit] == s[i];
      FirstWhereUnique(longer, p, limit);
    }
  }

  /** There is at most one first position. */
  lemma FirstTooSimilarUnique(exercises: seq<Exercise>, k: int, name: string, language: nat, threshold: int)
    requires IsFirstTooSimilar(exercises, k, name, language, threshold)
    ensures FirstTooSimilar(name, language, exercises, threshold) == Some(k)
  {
    var r := FirstTooSimilar(name, language, exercises, threshold);
    assert r.Some?;
    assert IsFirstTooSimilar(exercises, r.value, name, language, threshold);
  }

  /** The validation error naming the candidate and the existing exercise. */
  datatype NameError = TooSimilarTo(name: string, existingName: string)

  /** `ExerciseForm.clean_name`. `instanceId` is the edited instance's id
      (none, or Python-false 0, for a new exercise), `language` the current
      language and `exercises` the exercise table in its default order. */
  function CleanName(instanceId: Option<nat>, name: string, language: nat, exercises: seq<Exercise>, threshold: int)
    : (r: Result<string, NameError>)
    ensures instanceId.Some? && instanceId.value != 0 ==> r == Ok(name)
    ensures r.Ok? ==> r.value == name
    ensures (instanceId.None? || instanceId.value == 0) ==>
      (r.Err? <==> exists e :: e in exercises && TooSimilar(e, name, language, threshold))
    ensures r.Err? ==> r.error.name == name
    ensures r.Err? ==> exists k :: IsFirstTooSimilar(exercises, k, name, language, threshold)
                                   && r.error.existingName == exercises[k].name
  {
    if instanceId.Some? && instanceId.value != 0 then Ok(name)
    else
      match FirstTooSimilar(name, language, exercises, threshold)
      case None => Ok(name)
      case Some(k) => Err(TooSimilarTo(name, exercises[k].name))
  }

  /** A distance exactly at the threshold is accepted. */
  lemma ThresholdIsExclusive(e: Exercise, name: string, language: nat, threshold: int)
    requires e.language == language && Lev(Text.Lower(e.name), Text.Lower(name)) == threshold
    ensures CleanName(None, name, language, [e], threshold) == Ok(name)
  {
  }

  /** Exercises in other languages are never compared: inserting one anywhere
      changes nothing. */
  lemma OtherLanguageIgnored(instanceId: Option<nat>, name: string, language: nat, exercises: seq<Exercise>,
                             threshold: int, other: Exercise, k: nat)
    requires other.language != language && k <= |exercises|
    ensures CleanName(instanceId, name, language, exercises[..k] + [other] + exercises[k..], threshold)
         == CleanName(instanceId, name, language, exercises, threshold)
  {
    var longer := exercises[..k] + [other] + exercises[k..];
    InsertAt(exercises, other, k);
    InsertedOtherShifts(name, language, exercises, threshold, other, k);
    ShiftedSameVerdict(instanceId, name, language, longer, exercises, threshold, k);
  }

  /** Helper: a table whose first too-similar position is the other table's,
      shifted past `k`, with the same rows around `k`, gets the same verdict. */
  lemma ShiftedSameVerdict(instanceId: Option<nat>, name: string, language: nat,
                           xs: seq<Exercise>, ys: seq<Exercise>, threshold: int, k: nat)
    requires k <= |ys| && |xs| == |ys| + 1
    requires forall j {:trigger xs[j]} :: 0 <= j < k ==> xs[j] == ys[j]
    requires forall j {:trigger xs[j]} :: k < j < |xs| ==> xs[j] == ys[j - 1]
    requires FirstTooSimilar(name, language, xs, threshold) == Shifted(FirstTooSimilar(name, language, ys, threshold), k)
    ensures CleanName(instanceId, name, language, xs, threshold) == CleanName(instanceId, name, language, ys, threshold)
  {
    var first := FirstTooSimilar(name, language, ys, threshold);
    if first.Some? {
      var i := first.value;
      assert xs[if i < k then i else i + 1] == ys[i];
    }
    SameFirstSameVerdict(instanceId, name, language, xs, ys, threshold);
  }

  /** Helper: `clean_name` depends on the table only through the first
      too-similar exercise's name. */
  lemma SameFirstSameVerdict(instanceId: Option<nat>, name: string, language: nat,
                             xs: seq<Exercise>, ys: seq<Exercise>, threshold: int)
    requires FirstTooSimilar(name, language, xs, threshold).None? <==> FirstTooSimilar(name, language, ys, threshold).None?
    requires FirstTooSimilar(name, language, xs, threshold).Some? ==>
      xs[FirstTooSimilar(name, language, xs, threshold).value].name
        == ys[FirstTooSimilar(name, language, ys, threshold).value].name
    ensures CleanName(instanceId, name, language, xs, threshold) == CleanName(instanceId, name, language, ys, threshold)
  {
  }

  /** Helper: inserting an exercise of another language at `k` moves the first
      too-similar position past `k` up by one and leaves the rest alone. */
  lemma InsertedOtherShifts(name: string, language: nat, exercises: seq<Exercise>, threshold: int,
                            other: Exercise, k: nat)
    requires other.language != language && k <= |exercises|
    ensures FirstTooSimilar(name, language, exercises[..k] + [other] + exercises[k..], threshold)
         == Shifted(FirstTooSimilar(name, language, exercises, threshold), k)
  {
    assert !SimilarTo(name, language, threshold)(other);
    FirstWhereInsert(exercises, SimilarTo(name, language, threshold), other, k);
  }

  /** The four muscle columns of the detail page. */
  datatype MuscleColumns = MuscleColumns(
    mainFront: seq<Muscle>,
    mainBack: seq<Muscle>,
    secondaryFront: seq<Muscle>,
    secondaryBack: seq<Muscle>)

  predicate IsFront(m: Muscle)
  {
    m.isFront
  }

  predicate IsBack(m: Muscle)
  {
    !m.isFront
  }

  /** `front` and `back` split `all` by `is_front`: order kept, nothing lost,
      nothing in both. */
  predicate SplitsByFront(all: seq<Muscle>, front: seq<Muscle>, back: seq<Muscle>)
  {
    && (forall m :: m in front ==> m.isFront)
    && (forall m :: m in back ==> !m.isFront)
    && multiset(front) + multiset(back) == multiset(all)
    && Seqs.Subseq(front, all)
    && Seqs.Subseq(back, all)
  }

  /** Helper: the two filters together keep every muscle exactly once. */
  lemma FrontBackMultiset(all: seq<Muscle>)
    ensures multiset(Seqs.Filter(all, IsFront)) + multiset(Seqs.Filter(all, IsBack)) == multiset(all)
  {
    var front := Seqs.Filter(all, IsFront);
    var back := Seqs.Filter(all, IsBack);
    forall m ensures (multiset(front) + multiset(back))[m] == multiset(all)[m] {
      assert multiset(front)[m] == if IsFront(m) then multiset(all)[m] else 0;
      assert multiset(back)[m] == if IsBack(m) then multiset(all)[m] else 0;
    }
  }

  lemma FrontBackSplit(all: seq<Muscle>)
    ensures SplitsByFront(all, Seqs.Filter(all, IsFront), Seqs.Filter(all, IsBack))
  {
    FrontBackMultiset(all);
    Seqs.FilterIsSubseq(all, IsFront);
    Seqs.FilterIsSubseq(all, IsBack);
  }

  /** The `muscles_*` entries of the detail view's context. */
  function MuscleColumnsOf(e: Exercise): (r: MuscleColumns)
    requires e.base.Some?
    ensures SplitsByFront(e.base.value.muscles, r.mainFront, r.mainBack)
    ensures SplitsByFront(e.base.value.musclesSecondary, r.secondaryFront, r.secondaryBack)
  {
    var b := e.base.value;
    FrontBackSplit(b.muscles);
    FrontBackSplit(b.musclesSecondary);
    MuscleColumns(
      Seqs.Filter(b.muscles, IsFront), Seqs.Filter(b.muscles, IsBack),
      Seqs.Filter(b.musclesSecondary, IsFront), Seqs.Filter(b.musclesSecondary, IsBack))
  }

  /** `cache_vary_on`: `"<exercise id>-<language id>"`. */
  function CacheVaryOn(exerciseId: nat, languageId: nat): (r: string)
    ensures Text.Split(r, '-') == [PyInt.Show(exerciseId), PyInt.Show(languageId)]
  {
    var e, l := PyInt.Show(exerciseId), PyInt.Show(languageId);
    ShowHasNoDash(exerciseId);
    ShowHasNoDash(languageId);
    Text.SplitTwo(e, l, '-');
    e + "-" + l
  }

  /** Helper: a non-negative id renders without a dash. */
  lemma ShowHasNoDash(n: nat)
    ensures '-' !in PyInt.Show(n)
  {
    var s := PyInt.Show(n);
    assert forall k :: 0 <= k < |s| ==> PyInt.IsDigit(s[k]);
  }

  /** Read an exercise id and a language id back from a cache key. */
  function ParseVaryKey(key: string): Option<(int, int)>
  {
    var pieces := Text.Split(key, '-');
    if |pieces| != 2 then None
    else
      match (PyInt.Parse(pieces[0]), PyInt.Parse(pieces[1]))
      case (Some(e), Some(l)) => Some((e, l))
      case _ => None
  }

  /** The key names the exercise and the language it was built from. */
  lemma CacheVaryOnRoundTrip(exerciseId: nat, languageId: nat)
    requires PyInt.WithinStrDigits(exerciseId) && PyInt.WithinStrDigits(languageId)
    ensures ParseVaryKey(CacheVaryOn(exerciseId, languageId)) == Some((exerciseId as int, languageId as int))
  {
    PyInt.ParseShow(exerciseId);
    PyInt.ParseShow(languageId);
  }

  /** So two detail pages share a cache entry only for the same exercise in
      the same language. */
  lemma CacheVaryOnInjective(e1: nat, l1: nat, e2: nat, l2: nat)
    requires CacheVaryOn(e1, l1) == CacheVaryOn(e2, l2)
    ensures e1 == e2 && l1 == l2
  {
    assert PyInt.Show(e1) == PyInt.Show(e2) && PyInt.Show(l1) == PyInt.Show(l2);
    PyInt.ShowNatValue(e1);
    PyInt.ShowNatValue(e2);
    PyInt.ShowNatValue(l1);
    PyInt.ShowNatValue(l2);
  }

  predicate CategoryOrder(a: ExerciseBase, b: ExerciseBase)
  {
    a.category.id <= b.category.id
  }

  /** `ExerciseListView.get_queryset`: all bases ordered by category id. */
  function ListBases(bases: seq<ExerciseBase>): (r: seq<ExerciseBase>)
    ensures multiset(r) == multiset(bases)
    ensures forall i, j :: 0 <= i < j < |r| ==> r[i].category.id <= r[j].category.id
  {
    assert Sorting.TotalPreorder(CategoryOrder);
    Sorting.SortBy(bases, CategoryOrder)
  }
}
