/** The `Exercise` model's own behaviour: the cache keys its `save` and
    `delete` drop and the order of those effects, the `variations` and
    `main_image` properties, and `set_author`. */
module ExerciseModel {
  import opened Wrappers
  import opened Entities
  import Seqs
  import Text

  /** A cached artefact: a per-language template fragment, or the cached
      canonical form of a workout. */
  datatype CacheKey = Fragment(name: string, language: nat) | CanonicalForm(workout: nat)

  /** One effect of `save` or `delete`, in the order it happens. */
  datatype Effect = Persist(exercise: Exercise) | Invalidate(key: CacheKey) | Remove(exercise: Exercise)

  /** The three overview fragments that depend on exercise data. */
  predicate IsOverviewFragment(name: string)
  {
    name == "muscle-overview" || name == "exercise-overview" || name == "equipment-overview"
  }

  /** The fragment keys of every language, three per language. */
  function FragmentKeys(languages: seq<nat>): (r: seq<CacheKey>)
    ensures |r| == 3 * |languages|
    ensures forall k :: k in r <==> k.Fragment? && IsOverviewFragment(k.name) && k.language in languages
    decreases |languages|
  {
    if languages == [] then []
    else
      var l := languages[0];
      [Fragment("muscle-overview", l), Fragment("exercise-overview", l), Fragment("equipment-overview", l)]
        + FragmentKeys(languages[1..])
  }

  /** The canonical-form keys of the workouts whose settings use the base. */
  function WorkoutKeys(settings: seq<Setting>): (r: seq<CacheKey>)
    ensures |r| == |settings|
    ensures forall k :: k in r <==> k.CanonicalForm? && Setting(k.workout) in settings
    decreases |settings|
  {
    if settings == [] then []
    else [CanonicalForm(settings[0].workout)] + WorkoutKeys(settings[1..])
  }

  /** Everything `save` and `delete` invalidate for an exercise of `base`,
      given the ids of all languages: fragments first, then workouts. */
  function InvalidationKeys(languages: seq<nat>, base: ExerciseBase): (r: seq<CacheKey>)
    ensures |r| == 3 * |languages| + |base.settings|
    ensures forall k :: k in r <==>
      (k.Fragment? && IsOverviewFragment(k.name) && k.language in languages)
      || (k.CanonicalForm? && Setting(k.workout) in base.settings)
    ensures forall i, j :: 0 <= i < j < |r| && r[j].Fragment? ==> r[i].Fragment?
  {
    FragmentKeys(languages) + WorkoutKeys(base.settings)
  }

  function Invalidations(keys: seq<CacheKey>): (r: seq<Effect>)
    ensures |r| == |keys|
    ensures forall k :: Invalidate(k) in r <==> k in keys
    ensures forall x :: x in r ==> x.Invalidate?
  {
    Seqs.Map(keys, k => Invalidate(k))
  }

  /** `Exercise.save`: persist first, then invalidate. The base must be
      present, since `Exercise.save` dereferences it. */
  function Save(e: Exercise, languages: seq<nat>): (r: seq<Effect>)
    requires e.base.Some?
    ensures |r| == 1 + 3 * |languages| + |e.base.value.settings|
    ensures r[0] == Persist(e)
    ensures forall i :: 1 <= i < |r| ==> r[i].Invalidate?
    ensures forall k :: Invalidate(k) in r <==> k in InvalidationKeys(languages, e.base.value)
  {
    [Persist(e)] + Invalidations(InvalidationKeys(languages, e.base.value))
  }

  /** `Exercise.delete`: invalidate first, then delete. */
  function Delete(e: Exercise, languages: seq<nat>): (r: seq<Effect>)
    requires e.base.Some?
    ensures |r| == 1 + 3 * |languages| + |e.base.value.settings|
    ensures r[|r| - 1] == Remove(e)
    ensures forall i :: 0 <= i < |r| - 1 ==> r[i].Invalidate?
    ensures forall k :: Invalidate(k) in r <==> k in InvalidationKeys(languages, e.base.value)
  {
    Invalidations(InvalidationKeys(languages, e.base.value)) + [Remove(e)]
  }

  /** `save` and `delete` invalidate the same keys in the same order; they
      differ only in where the write to the table falls. */
  lemma SaveDeleteSameInvalidations(e: Exercise, languages: seq<nat>)
    requires e.base.Some?
    ensures Save(e, languages)[1..] == Delete(e, languages)[..|Delete(e, languages)| - 1]
    ensures forall k :: Invalidate(k) in Save(e, languages) <==> Invalidate(k) in Delete(e, languages)
    ensures Persist(e) !in Delete(e, languages) && Remove(e) !in Save(e, languages)
  {
  }

  /** The exercises of one base written in `language`. */
  predicate IsTranslationOf(e: Exercise, b: ExerciseBase, language: nat)
  {
    e.base.Some? && e.base.value.id == b.id && e.language == language
  }

  /** For each base of variation group `group`, in order, its exercises in
      `language`. */
  function GroupTranslations(group: nat, language: nat, bases: seq<ExerciseBase>, exercises: seq<Exercise>): (r: seq<Exercise>)
    ensures forall e :: e in r <==>
      e in exercises && exists b :: b in bases && b.variations == Some(group) && IsTranslationOf(e, b, language)
    decreases |bases|
  {
    if bases == [] then []
    else
      var b := bases[0];
      var here := if b.variations == Some(group)
        then Seqs.Filter(exercises, e => IsTranslationOf(e, b, language))
        else [];
      var rest := GroupTranslations(group, language, bases[1..], exercises);
      assert forall c :: c in bases <==> c == b || c in bases[1..];
      here + rest
  }

  /** `Exercise.variations`: the same-language exercises of every base in the
      variation group of this exercise's base, or nothing when the base has no
      group. `bases` and `exercises` are the tables. */
  function Variations(self: Exercise, bases: seq<ExerciseBase>, exercises: seq<Exercise>): (r: seq<Exercise>)
    requires self.base.Some?
    ensures self.base.value.variations.None? ==> r == []
    ensures forall e :: e in r ==> e in exercises && e.language == self.language && e.base.Some?
    ensures self.base.value.variations.Some? ==>
      forall e :: e in r <==>
        && e in exercises
        && (exists b :: b in bases && b.variations == self.base.value.variations && IsTranslationOf(e, b, self.language))
  {
    match self.base.value.variations
    case None => []
    case Some(group) => GroupTranslations(group, self.language, bases, exercises)
  }

  predicate IsAcceptedMain(img: Image)
  {
    img.accepted && img.isMain
  }

  /** Position of the first accepted main image. */
  function MainImageIndex(images: seq<Image>): (r: Option<nat>)
    ensures r.None? <==> forall i :: 0 <= i < |images| ==> !IsAcceptedMain(images[i])
    ensures r.Some? ==> r.value < |images| && IsAcceptedMain(images[r.value])
    ensures r.Some? ==> forall j :: 0 <= j < r.value ==> !IsAcceptedMain(images[j])
    decreases |images|
  {
    if images == [] then None
    else if IsAcceptedMain(images[0]) then Some(0)
    else
      match MainImageIndex(images[1..])
      case None => None
      case Some(k) => Some(k + 1)
  }

  /** `Exercise.main_image`: the first image of the base that is accepted and
      marked main, or `None`. "First" is in the order of `base.images`, which
      holds the images in the order the query set yields them (its model
      ordering, falling back to the primary key). */
  function MainImage(self: Exercise): (r: Option<Image>)
    requires self.base.Some?
    ensures r.None? <==> forall img :: img in self.base.value.images ==> !IsAcceptedMain(img)
    ensures r.Some? ==> r.value in self.base.value.images && IsAcceptedMain(r.value)
    ensures r.Some? ==> exists k :: (0 <= k < |self.base.value.images| && self.base.value.images[k] == r.value
      && forall j :: 0 <= j < k ==> !IsAcceptedMain(self.base.value.images[j]))
  {
    var images := self.base.value.images;
    match MainImageIndex(images)
    case None => None
    case Some(k) => Some(images[k])
  }

  /** `request.get_host().split(':')[0]`: the host without its port. */
  function HostWithoutPort(host: string): (r: string)
    ensures ':' !in r
    ensures Text.IsPrefix(r, host)
    ensures ':' !in host ==> r == host
    ensures |r| < |host| ==> host[|r|] == ':'
  {
    Text.Split(host, ':')[0]
  }

  /** The mail `set_author` sends to the administrators. */
  datatype AdminNotice = AdminNotice(username: string, exerciseName: string)

  datatype AuthorOutcome = AuthorOutcome(exercise: Exercise, notice: Option<AdminNotice>)

  /** `Exercise.set_author` for a request from `username` at `host`, where
      `canAddExercise` is the `exercises.add_exercise` permission. */
  function SetAuthor(self: Exercise, canAddExercise: bool, host: string, username: string): (r: AuthorOutcome)
    ensures r.exercise == self.(licenseAuthor := r.exercise.licenseAuthor)
    ensures self.licenseAuthor != [] ==> r.exercise.licenseAuthor == self.licenseAuthor
    ensures canAddExercise && self.licenseAuthor == [] ==>
      r.exercise.licenseAuthor == HostWithoutPort(host) && ':' !in r.exercise.licenseAuthor
    ensures !canAddExercise && self.licenseAuthor == [] ==> r.exercise.licenseAuthor == username
    ensures r.notice.Some? <==> !canAddExercise
    ensures r.notice.Some? ==> r.notice.value == AdminNotice(username, self.name)
  {
    if canAddExercise then
      var author := if self.licenseAuthor == [] then HostWithoutPort(host) else self.licenseAuthor;
      AuthorOutcome(self.(licenseAuthor := author), None)
    else
      var author := if self.licenseAuthor == [] then username else self.licenseAuthor;
      AuthorOutcome(self.(licenseAuthor := author), Some(AdminNotice(username, self.name)))
  }

  /** `set_author` only fills an empty author: applying it again with any
      request changes nothing further. */
  lemma SetAuthorSettles(self: Exercise, canAdd: bool, host: string, username: string,
                         canAdd': bool, host': string, username': string)
    requires self.licenseAuthor != [] || (canAdd && host != [] && host[0] != ':') || (!canAdd && username != [])
    ensures var once := SetAuthor(self, canAdd, host, username).exercise;
            SetAuthor(once, canAdd', host', username').exercise == once
  {
  }
}
