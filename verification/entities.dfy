/** The persisted entities of the exercise database, as immutable records.
    Foreign keys are followed eagerly: an exercise holds its base (or none, the
    column being nullable), a base holds its category, muscles, equipment,
    images and the workout settings that use it. */
module Entities {
  import opened Wrappers
  import PyInt

  datatype Category = Category(id: nat, name: string)

  datatype Muscle = Muscle(id: nat, name: string, isFront: bool)

  datatype Equipment = Equipment(id: nat, name: string)

  /** An exercise image. `accepted` stands for membership in the
      `images.accepted()` query set, whose definition is not part of this
      model. */
  datatype Image = Image(id: nat, url: string, isMain: bool, accepted: bool)

  /** A workout setting that uses a base, reduced to the id of the workout it
      belongs to (`setting.set.exerciseday.training_id`). */
  datatype Setting = Setting(workout: nat)

  /** The language-neutral root of an exercise. `variations` is the id of its
      variation group, if any. `images` is in the order the image query set
      yields them. */
  datatype ExerciseBase = ExerciseBase(
    id: nat,
    category: Category,
    muscles: seq<Muscle>,
    musclesSecondary: seq<Muscle>,
    equipment: seq<Equipment>,
    license: nat,
    variations: Option<nat>,
    images: seq<Image>,
    settings: seq<Setting>)

  /** A translation of a base into one language. An absent `licenseAuthor` is
      the empty string, which Python treats as false like `None`. */
  datatype Exercise = Exercise(
    id: nat,
    name: string,
    description: string,
    language: nat,
    base: Option<ExerciseBase>,
    licenseAuthor: string,
    aliases: seq<string>)

  datatype ExerciseComment = ExerciseComment(id: nat, exercise: nat, comment: string)

  const DescriptionMinLength: nat := 40
  const DescriptionMaxLength: nat := 2000
  const NameMaxLength: nat := 200

  /** The field errors a write reports. A blank field is reported as blank
      only: the length validators do not run on empty values. */
  datatype FieldError =
    | NameBlank
    | NameTooLong
    | DescriptionBlank
    | DescriptionTooShort
    | DescriptionTooLong

  /** How an exercise is written. A REST API write goes through a model
      serializer, which carries over the model's `max_length` on both fields
      and requires a description. `ExerciseForm` redeclares `description` as
      an optional field without `max_length`: an empty description is then
      left out of model validation, and a non-empty one is checked by the
      model's `MinLengthValidator(40)` alone, since a `TextField` does not
      enforce its `max_length`. On both paths the text fields strip
      surrounding whitespace before any check (Django's `CharField(strip=True)`
      and the serializer's `CharField(trim_whitespace=True)`, both defaults),
      and the stripped text is what is saved. */
  datatype WritePath = ApiWrite | FormWrite

  /** The record with `name` and `description` stripped, as the fields clean
      them. */
  function Cleaned(e: Exercise): (c: Exercise)
    ensures c.name == PyInt.Strip(e.name) && c.description == PyInt.Strip(e.description)
  {
    e.(name := PyInt.Strip(e.name), description := PyInt.Strip(e.description))
  }

  /** The already cleaned `name` and `description` meet the bounds the path
      enforces. */
  predicate WithinBounds(path: WritePath, e: Exercise)
  {
    && 1 <= |e.name| <= NameMaxLength
    && (path.ApiWrite? ==> DescriptionMinLength <= |e.description| <= DescriptionMaxLength)
    && (path.FormWrite? ==> e.description == [] || DescriptionMinLength <= |e.description|)
  }

  /** The errors of an already stripped name. */
  function NameErrors(name: string): (r: set<FieldError>)
    ensures NameBlank in r <==> name == []
    ensures NameTooLong in r <==> |name| > NameMaxLength
    ensures r <= {NameBlank, NameTooLong}
  {
    if name == [] then {NameBlank}
    else if |name| > NameMaxLength then {NameTooLong}
    else {}
  }

  /** The errors of an already stripped description. */
  function DescriptionErrors(path: WritePath, description: string): (r: set<FieldError>)
    ensures DescriptionBlank in r <==> path.ApiWrite? && description == []
    ensures DescriptionTooShort in r <==> 0 < |description| < DescriptionMinLength
    ensures DescriptionTooLong in r <==> path.ApiWrite? && |description| > DescriptionMaxLength
    ensures r <= {DescriptionBlank, DescriptionTooShort, DescriptionTooLong}
  {
    if description == [] then (if path.ApiWrite? then {DescriptionBlank} else {})
    else
      (if |description| < DescriptionMinLength then {DescriptionTooShort} else {})
      + (if path.ApiWrite? && |description| > DescriptionMaxLength then {DescriptionTooLong} else {})
  }

  /** Field validation of a written exercise: the stripped record, or every
      violated bound. A field of whitespace only is blank. */
  function Validate(path: WritePath, e: Exercise): (r: Result<Exercise, set<FieldError>>)
    ensures r.Ok? <==> WithinBounds(path, Cleaned(e))
    ensures r.Ok? ==> r.value == Cleaned(e)
    ensures r.Err? ==> r.error != {}
    ensures r.Err? ==> (NameBlank in r.error <==> PyInt.Strip(e.name) == [])
    ensures r.Err? ==> (NameTooLong in r.error <==> |PyInt.Strip(e.name)| > NameMaxLength)
    ensures r.Err? ==> (DescriptionBlank in r.error <==> path.ApiWrite? && PyInt.Strip(e.description) == [])
    ensures r.Err? ==> (DescriptionTooShort in r.error <==> 0 < |PyInt.Strip(e.description)| < DescriptionMinLength)
    ensures r.Err? ==> (DescriptionTooLong in r.error <==>
                          path.ApiWrite? && |PyInt.Strip(e.description)| > DescriptionMaxLength)
  {
    var c := Cleaned(e);
    var errors := FieldErrors(path, c);
    if errors == {} then Ok(c) else Err(errors)
  }

  /** The errors of an already cleaned record. */
  function FieldErrors(path: WritePath, c: Exercise): (r: set<FieldError>)
    ensures r == {} <==> WithinBounds(path, c)
    ensures NameBlank in r <==> c.name == []
    ensures NameTooLong in r <==> |c.name| > NameMaxLength
    ensures DescriptionBlank in r <==> path.ApiWrite? && c.description == []
    ensures DescriptionTooShort in r <==> 0 < |c.description| < DescriptionMinLength
    ensures DescriptionTooLong in r <==> path.ApiWrite? && |c.description| > DescriptionMaxLength
  {
    NameErrors(c.name) + DescriptionErrors(path, c.description)
  }

  /** A field is reported blank exactly when it holds whitespace only. */
  lemma BlankMeansWhitespace(path: WritePath, e: Exercise)
    ensures Validate(path, e).Err? ==> (NameBlank in Validate(path, e).error <==> PyInt.AllSpace(e.name))
    ensures Validate(path, e).Err? ==>
      (DescriptionBlank in Validate(path, e).error <==> path.ApiWrite? && PyInt.AllSpace(e.description))
    ensures Validate(path, e).Ok? ==> !PyInt.AllSpace(e.name)
  {
    PyInt.StripBlank(e.name);
    PyInt.StripBlank(e.description);
  }

  /** Whitespace around either field changes nothing: not the verdict, not
      the errors, not the record saved. */
  lemma PaddingIgnored(path: WritePath, e: Exercise, p: string, q: string)
    requires PyInt.AllSpace(p) && PyInt.AllSpace(q)
    ensures Validate(path, e.(name := p + e.name + q)) == Validate(path, e)
    ensures Validate(path, e.(description := p + e.description + q)) == Validate(path, e)
  {
    PyInt.StripPadding(p, e.name, q);
    PyInt.StripPadding(p, e.description, q);
  }

  /** A record that passed validation passes again unchanged: saving the
      stripped record and validating it once more is stable. */
  lemma ValidateSettles(path: WritePath, e: Exercise)
    requires Validate(path, e).Ok?
    ensures Validate(path, Validate(path, e).value) == Validate(path, e)
  {
    PyInt.StripIdempotent(e.name);
    PyInt.StripIdempotent(e.description);
  }

  /** The two paths differ only on the description: a form accepts an empty
      (or blank) or over-long one that the API refuses, and nothing else. */
  lemma PathsDiffer(e: Exercise)
    ensures Validate(FormWrite, e).Ok? && Validate(ApiWrite, e).Err? <==>
      1 <= |PyInt.Strip(e.name)| <= NameMaxLength
      && (PyInt.AllSpace(e.description) || |PyInt.Strip(e.description)| > DescriptionMaxLength)
    ensures Validate(ApiWrite, e).Ok? ==> Validate(FormWrite, e).Ok?
  {
    PyInt.StripBlank(e.description);
  }
}
