/** The request logic of the exercise REST API: the extra query-parameter
    filters of the exercise list, the autocomplete `search` action, the
    `thumbnails` action on images and the language filter on comments. */
module ExerciseApi {
  import opened Wrappers
  import opened Entities
  import Seqs
  import Text
  import Sorting
  import PyInt
  import ExerciseModel

  /** The query string: `query_params.get(key)` yields the last value given
      for `key`, which is what this map holds. */
  type QueryParams = map<string, string>

  /** Python's `if value:` on `query_params.get(key)`: present and non-empty. */
  predicate Present(q: QueryParams, key: string)
  {
    key in q && q[key] != []
  }

  /** `[int(x) for x in pieces]`, or `None` where some `int(x)` raises. */
  function ParsePieces(pieces: seq<string>): (r: Option<seq<int>>)
    ensures r.Some? <==> forall i :: 0 <= i < |pieces| ==> PyInt.Parse(pieces[i]).Some?
    ensures r.Some? ==> |r.value| == |pieces|
    ensures r.Some? ==> forall i :: 0 <= i < |pieces| ==> PyInt.Parse(pieces[i]) == Some(r.value[i])
  {
    ParseEach(pieces, PyInt.Parse)
  }

  /** Helper: applies `parse` to every piece, failing as a whole when one
      piece fails. */
  function ParseEach(pieces: seq<string>, parse: string -> Option<int>): (r: Option<seq<int>>)
    ensures r.Some? <==> forall i :: 0 <= i < |pieces| ==> parse(pieces[i]).Some?
    ensures r.Some? ==> |r.value| == |pieces|
    ensures r.Some? ==> forall i :: 0 <= i < |pieces| ==> parse(pieces[i]) == Some(r.value[i])
    decreases |pieces|
  {
    if pieces == [] then Some([])
    else
      var head, rest := parse(pieces[0]), ParseEach(pieces[1..], parse);
      assert forall i :: 1 <= i < |pieces| ==> pieces[i] == pieces[1..][i - 1];
      if head.None? || rest.None? then None
      else Some([head.value] + rest.value)
  }

  /** `[int(x) for x in text.split(',')]`: a list of ids, or `None` when any
      piece, including an empty one, is not an integer. */
  function ParseIdList(text: string): (r: Option<seq<int>>)
    ensures r.Some? <==> forall p :: p in Text.Split(text, ',') ==> PyInt.Parse(p).Some?
    ensures r.Some? ==> |r.value| == |Text.Split(text, ',')|
    ensures r.Some? ==> forall i :: 0 <= i < |r.value| ==> PyInt.Parse(Text.Split(text, ',')[i]) == Some(r.value[i])
  {
    ParsePieces(Text.Split(text, ','))
  }

  /** Helper: a rendered integer holds no comma. */
  lemma ShowHasNoComma(n: int)
    ensures ',' !in PyInt.Show(n)
  {
    var text := PyInt.Show(n);
    forall k | 0 <= k < |text| ensures text[k] != ',' {
    }
  }

  /** Rendering ids as `1,2,3` and parsing the text gives the ids back. */
  lemma ParseIdListRoundTrip(ids: seq<int>)
    requires |ids| >= 1
    requires forall i :: 0 <= i < |ids| ==> PyInt.WithinStrDigits(ids[i])
    ensures ParseIdList(Text.Join(Seqs.Map(ids, PyInt.Show), ',')) == Some(ids)
  {
    var pieces := Seqs.Map(ids, PyInt.Show);
    forall i | 0 <= i < |pieces| ensures ',' !in pieces[i] {
      ShowHasNoComma(ids[i]);
    }
    Text.SplitJoin(pieces, ',');
    forall i | 0 <= i < |pieces| ensures PyInt.Parse(pieces[i]) == Some(ids[i]) {
      PyInt.ParseShow(ids[i]);
    }
    var r := ParsePieces(pieces);
    assert r.Some?;
    forall i | 0 <= i < |ids| ensures r.value[i] == ids[i] {
      assert PyInt.Parse(pieces[i]) == Some(r.value[i]);
    }
    assert r.value == ids;
  }

  /** Two commas in a row leave an empty piece, which makes the whole list
      invalid. */
  lemma DoubleCommaRejectsList()
    ensures ParseIdList("1,,2") == None
  {
    Text.SplitAfterPiece("", "2", ',');
    Text.SplitAfterPiece("1", ",2", ',');
    assert "1" + [','] + ",2" == "1,,2";
    assert "" + [','] + "2" == ",2";
    assert "" in Text.Split("1,,2", ',');
  }

  /** So does a trailing comma. */
  lemma TrailingCommaRejectsList()
    ensures ParseIdList("1,2,") == None
  {
    Text.SplitAfterPiece("2", "", ',');
    Text.SplitAfterPiece("1", "2,", ',');
    assert "1" + [','] + "2," == "1,2,";
    assert "2" + [','] + "" == "2,";
    assert "" in Text.Split("1,2,", ',');
  }

  /** The extra filters of the exercise list, each either applied with its
      value or skipped. */
  datatype Filters = Filters(
    category: Option<int>,
    muscles: Option<seq<int>>,
    musclesSecondary: Option<seq<int>>,
    equipment: Option<seq<int>>,
    license: Option<int>)

  /** A single-id filter: applied when present and `int()` accepts it. */
  function IdFilter(q: QueryParams, key: string): (r: Option<int>)
    ensures r.Some? <==> Present(q, key) && PyInt.Parse(q[key]).Some?
    ensures r.Some? ==> PyInt.Parse(q[key]) == r
  {
    if Present(q, key) then PyInt.Parse(q[key]) else None
  }

  /** A comma-separated filter: applied when present and every piece is an
      integer, skipped as a whole otherwise. */
  function IdListFilter(q: QueryParams, key: string): (r: Option<seq<int>>)
    ensures r.Some? <==> Present(q, key) && forall p :: p in Text.Split(q[key], ',') ==> PyInt.Parse(p).Some?
    ensures r.Some? ==> r == ParseIdList(q[key])
  {
    if Present(q, key) then ParseIdList(q[key]) else None
  }

  /** `f` is what a single-id parameter `key` yields: a filter exactly when
      the value is given and `int()` accepts it, with the parsed id. */
  predicate IdFrom(q: QueryParams, key: string, f: Option<int>)
  {
    && (f.Some? <==> Present(q, key) && PyInt.Parse(q[key]).Some?)
    && (f.Some? ==> PyInt.Parse(q[key]) == Some(f.value))
  }

  /** `f` is what a comma-separated parameter `key` yields: a filter exactly
      when the value is given and `int()` accepts every piece, with the pieces'
      ids in order. */
  predicate IdsFrom(q: QueryParams, key: string, f: Option<seq<int>>)
  {
    && (f.Some? <==> Present(q, key) && forall p :: p in Text.Split(q[key], ',') ==> PyInt.Parse(p).Some?)
    && (f.Some? ==> |f.value| == |Text.Split(q[key], ',')|
                    && forall i :: 0 <= i < |f.value| ==> PyInt.Parse(Text.Split(q[key], ',')[i]) == Some(f.value[i]))
  }

  /** The filter part of `ExerciseViewSet.get_queryset`: each parameter is
      read independently, and a value `int()` rejects is logged and skipped. */
  function ParseFilters(q: QueryParams): (r: Filters)
    ensures IdFrom(q, "category", r.category)
    ensures IdsFrom(q, "muscles", r.muscles)
    ensures IdsFrom(q, "muscles_secondary", r.musclesSecondary)
    ensures IdsFrom(q, "equipment", r.equipment)
    ensures IdFrom(q, "license", r.license)
  {
    Filters(
      IdFilter(q, "category"),
      IdListFilter(q, "muscles"),
      IdListFilter(q, "muscles_secondary"),
      IdListFilter(q, "equipment"),
      IdFilter(q, "license"))
  }

  /** Two query strings agree on parameter `key`. */
  predicate SameParam(q1: QueryParams, q2: QueryParams, key: string)
  {
    (key in q1 <==> key in q2) && (key in q1 ==> q1[key] == q2[key])
  }

  /** Each filter is decided by its own parameter alone: query strings that
      agree on a parameter give the same filter for it, whatever else they
      hold. */
  lemma FiltersReadOwnParams(q1: QueryParams, q2: QueryParams)
    ensures SameParam(q1, q2, "category") ==> ParseFilters(q1).category == ParseFilters(q2).category
    ensures SameParam(q1, q2, "muscles") ==> ParseFilters(q1).muscles == ParseFilters(q2).muscles
    ensures SameParam(q1, q2, "muscles_secondary") ==>
      ParseFilters(q1).musclesSecondary == ParseFilters(q2).musclesSecondary
    ensures SameParam(q1, q2, "equipment") ==> ParseFilters(q1).equipment == ParseFilters(q2).equipment
    ensures SameParam(q1, q2, "license") ==> ParseFilters(q1).license == ParseFilters(q2).license
  {
  }

  /** Some muscle of `muscles` has one of the `ids` (an `__in` lookup). */
  predicate AnyIdIn(muscles: seq<Muscle>, ids: seq<int>)
  {
    exists m :: m in muscles && m.id in ids
  }

  predicate AnyEquipmentIn(equipment: seq<Equipment>, ids: seq<int>)
  {
    exists x :: x in equipment && x.id in ids
  }

  /** `e` passes every applied filter. Filters go through the base, so an
      exercise without a base fails any applied filter. */
  predicate Matches(f: Filters, e: Exercise)
    ensures f == Filters(None, None, None, None, None) ==> Matches(f, e)
    ensures Matches(f, e) && f != Filters(None, None, None, None, None) ==> e.base.Some?
  {
    && (f.category.Some? ==> e.base.Some? && e.base.value.category.id == f.category.value)
    && (f.muscles.Some? ==> e.base.Some? && AnyIdIn(e.base.value.muscles, f.muscles.value))
    && (f.musclesSecondary.Some? ==> e.base.Some? && AnyIdIn(e.base.value.musclesSecondary, f.musclesSecondary.value))
    && (f.equipment.Some? ==> e.base.Some? && AnyEquipmentIn(e.base.value.equipment, f.equipment.value))
    && (f.license.Some? ==> e.base.Some? && e.base.value.license == f.license.value)
  }

  /** `ExerciseViewSet.get_queryset` over the exercise table. */
  function ExerciseQuery(q: QueryParams, exercises: seq<Exercise>): (r: seq<Exercise>)
    ensures Seqs.Subseq(r, exercises)
    ensures forall e :: e in r <==> e in exercises && Matches(ParseFilters(q), e)
  {
    Apply(ParseFilters(q), exercises)
  }

  /** The exercises that pass every applied filter, in table order. */
  function Apply(f: Filters, exercises: seq<Exercise>): (r: seq<Exercise>)
    ensures Seqs.Subseq(r, exercises)
    ensures forall e :: e in r <==> e in exercises && Matches(f, e)
  {
    Seqs.FilterIsSubseq(exercises, e => Matches(f, e));
    Seqs.Filter(exercises, e => Matches(f, e))
  }

  /** Without any of the five parameters the whole table comes back. */
  lemma NoParamsNoFilter(q: QueryParams, exercises: seq<Exercise>)
    requires forall k :: k in q ==> k !in ["category", "muscles", "muscles_secondary", "equipment", "license"]
    ensures ExerciseQuery(q, exercises) == exercises
  {
    assert !Present(q, "category") && !Present(q, "license");
    assert !Present(q, "muscles") && !Present(q, "muscles_secondary") && !Present(q, "equipment");
    FilterAll(exercises, e => Matches(ParseFilters(q), e));
  }

  lemma {:induction false} FilterAll<T(!new)>(s: seq<T>, p: T -> bool)
    requires forall x :: x in s ==> p(x)
    ensures Seqs.Filter(s, p) == s
    decreases |s|
  {
    if s != [] {
      FilterAll(s[1..], p);
    }
  }

  /** A value `int()` rejects has the same effect as leaving the parameter
      out, and it does not disturb the other filters. */
  lemma BadValueIsIgnored(q: QueryParams, key: string, exercises: seq<Exercise>)
    requires key in ["category", "muscles", "muscles_secondary", "equipment", "license"]
    requires key in q
    requires key == "category" || key == "license" ==> PyInt.Parse(q[key]).None?
    requires key != "category" && key != "license" ==> ParseIdList(q[key]).None?
    ensures ParseFilters(q) == ParseFilters(q - {key})
    ensures ExerciseQuery(q, exercises) == ExerciseQuery(q - {key}, exercises)
  {
    BadValueSameFilters(q, key);
  }

  /** Helper: the filters half of `BadValueIsIgnored`. */
  lemma BadValueSameFilters(q: QueryParams, key: string)
    requires key in ["category", "muscles", "muscles_secondary", "equipment", "license"]
    requires key in q
    requires key == "category" || key == "license" ==> PyInt.Parse(q[key]).None?
    requires key != "category" && key != "license" ==> ParseIdList(q[key]).None?
    ensures ParseFilters(q) == ParseFilters(q - {key})
  {
    var rest := q - {key};
    forall k | k != key
      ensures IdFilter(q, k) == IdFilter(rest, k)
      ensures IdListFilter(q, k) == IdListFilter(rest, k)
    {
      if k in q {
        assert k in rest && rest[k] == q[k];
      }
    }
    if key == "category" || key == "license" {
      assert IdFilter(q, key) == None == IdFilter(rest, key);
    } else {
      assert IdListFilter(q, key) == None == IdListFilter(rest, key);
    }
  }

  /** The `search` action's ordering: category name, then exercise name. */
  function CategoryName(e: Exercise): string
  {
    if e.base.Some? then e.base.value.category.name else []
  }

  predicate SearchOrder(a: Exercise, b: Exercise)
  {
    if CategoryName(a) == CategoryName(b) then Text.StrLe(a.name, b.name)
    else Text.StrLe(CategoryName(a), CategoryName(b))
  }

  lemma SearchOrderIsTotalPreorder()
    ensures Sorting.TotalPreorder(SearchOrder)
  {
    forall a, b ensures SearchOrder(a, b) || SearchOrder(b, a) {
      Text.StrLeTotal(a.name, b.name);
      Text.StrLeTotal(CategoryName(a), CategoryName(b));
    }
    forall a, b, c | SearchOrder(a, b) && SearchOrder(b, c) ensures SearchOrder(a, c) {
      var ca, cb, cc := CategoryName(a), CategoryName(b), CategoryName(c);
      if ca == cb && cb == cc {
        Text.StrLeTransitive(a.name, b.name, c.name);
      } else if ca == cb {
        assert Text.StrLe(cb, cc);
      } else if cb == cc {
        assert Text.StrLe(ca, cb);
      } else {
        Text.StrLeTransitive(ca, cb, cc);
        if ca == cc {
          Text.StrLeAntisymmetric(ca, cb);
        }
      }
    }
  }

  /** Name or some alias contains the term, ignoring case. */
  predicate NameMatches(e: Exercise, term: string)
  {
    Text.IContains(e.name, term) || exists a :: a in e.aliases && Text.IContains(a, term)
  }

  predicate IsHit(e: Exercise, term: string, languages: set<nat>)
  {
    NameMatches(e, term) && e.language in languages
  }

  /** The exercises `search` matches, in table order. */
  function Hits(term: string, languages: set<nat>, exercises: seq<Exercise>): (r: seq<Exercise>)
    ensures forall e :: e in r <==> e in exercises && IsHit(e, term, languages)
  {
    Seqs.Filter(exercises, e => IsHit(e, term, languages))
  }

  /** `order_by('exercise_base__category__name', 'name')`. */
  function OrderForSearch(s: seq<Exercise>): (r: seq<Exercise>)
    ensures Sorting.SortedBy(r, SearchOrder)
    ensures multiset(r) == multiset(s)
  {
    SearchOrderIsTotalPreorder();
    Sorting.SortBy(s, SearchOrder)
  }

  function ExerciseId(e: Exercise): nat
  {
    e.id
  }

  /** The query set `search` iterates over: matching exercises in the
      resolved languages, ordered by (category name, name), each at most once. */
  function SearchExercises(term: string, languages: set<nat>, exercises: seq<Exercise>): (r: seq<Exercise>)
    ensures forall e :: e in r ==> e in exercises && IsHit(e, term, languages)
    ensures forall e :: e in exercises && IsHit(e, term, languages) ==> exists k :: 0 <= k < |r| && r[k].id == e.id
    ensures Sorting.SortedBy(r, SearchOrder)
    ensures forall i, j :: 0 <= i < j < |r| ==> r[i].id != r[j].id
  {
    var hits := Hits(term, languages, exercises);
    var r := OrderDistinct(hits);
    SearchCovers(term, languages, exercises, hits, r);
    r
  }

  /** Helper: the ordered, de-duplicated hits are the hits of the table. */
  lemma SearchCovers(term: string, languages: set<nat>, exercises: seq<Exercise>, hits: seq<Exercise>, r: seq<Exercise>)
    requires forall e :: e in hits <==> e in exercises && IsHit(e, term, languages)
    requires forall e :: e in r ==> e in hits
    requires forall e :: e in hits ==> exists k :: 0 <= k < |r| && r[k].id == e.id
    ensures forall e :: e in r ==> e in exercises && IsHit(e, term, languages)
    ensures forall e :: e in exercises && IsHit(e, term, languages) ==> exists k :: 0 <= k < |r| && r[k].id == e.id
  {
    forall e | e in r ensures e in exercises && IsHit(e, term, languages) {
      assert e in hits;
    }
    forall e | e in exercises && IsHit(e, term, languages) ensures exists k :: 0 <= k < |r| && r[k].id == e.id {
      assert e in hits;
    }
  }

  /** Helper: `.order_by(...).distinct()` on any rows. */
  function OrderDistinct(rows: seq<Exercise>): (r: seq<Exercise>)
    ensures forall e :: e in r ==> e in rows
    ensures forall e :: e in rows ==> exists k :: 0 <= k < |r| && r[k].id == e.id
    ensures Sorting.SortedBy(r, SearchOrder)
    ensures forall i, j :: 0 <= i < j < |r| ==> r[i].id != r[j].id
  {
    var ordered := OrderForSearch(rows);
    Sorting.SameMembers(ordered, rows);
    var r := Sorting.DistinctBy(ordered, ExerciseId, {});
    DistinctCovers(ordered, r);
    Seqs.SubseqMembers(r, ordered);
    Sorting.SubseqSorted(r, ordered, SearchOrder);
    forall e | e in r ensures e in rows {
      assert e in ordered;
    }
    forall e | e in rows ensures exists k :: 0 <= k < |r| && r[k].id == e.id {
      assert e in ordered;
    }
    r
  }

  /** Helper: de-duplication by id keeps some exercise for every id. */
  lemma DistinctCovers(ordered: seq<Exercise>, r: seq<Exercise>)
    requires r == Sorting.DistinctBy(ordered, ExerciseId, {})
    ensures forall e :: e in ordered ==> exists k :: 0 <= k < |r| && r[k].id == e.id
  {
    forall e | e in ordered ensures exists k :: 0 <= k < |r| && r[k].id == e.id {
      var k :| 0 <= k < |r| && ExerciseId(r[k]) == ExerciseId(e);
    }
  }

  datatype SuggestionData = SuggestionData(
    id: nat,
    name: string,
    category: string,
    image: Option<string>,
    imageThumbnail: Option<string>)

  datatype Suggestion = Suggestion(value: string, data: SuggestionData)

  /** `{}` when no term was given, else `{"suggestions": [...]}`. */
  datatype SearchResponse = NoSuggestions | Suggestions(suggestions: seq<Suggestion>)

  function MainImageOf(e: Exercise): Option<Image>
  {
    if e.base.Some? then ExerciseModel.MainImage(e) else None
  }

  /** One autocomplete entry. `translate` is gettext on the category name and
      `microThumbnail` renders the `micro_cropped` thumbnail of an image. */
  function ToSuggestion(e: Exercise, translate: string -> string, microThumbnail: string -> string): (s: Suggestion)
    ensures e.base.Some? ==> Describes(s, e, translate)
  {
    var image := MainImageOf(e);
    Suggestion(e.name, SuggestionData(
      e.id,
      e.name,
      translate(CategoryName(e)),
      if image.Some? then Some(image.value.url) else None,
      if image.Some? then Some(microThumbnail(image.value.url)) else None))
  }

  /** `s` is the autocomplete entry of `e`. */
  predicate Describes(s: Suggestion, e: Exercise, translate: string -> string)
    requires e.base.Some?
  {
    && s.value == e.name
    && s.data.name == e.name
    && s.data.id == e.id
    && s.data.category == translate(e.base.value.category.name)
    && (s.data.image.None? <==> ExerciseModel.MainImage(e).None?)
    && (s.data.imageThumbnail.None? <==> ExerciseModel.MainImage(e).None?)
    && (s.data.image.Some? ==> s.data.image.value == ExerciseModel.MainImage(e).value.url)
  }

  /** The `search` view. `term` is the `term` parameter and `languages` the
      ids `load_item_languages` resolves for the request. Every hit must have
      a base, since `main_image` and `category` are read through it for each
      one; other exercises are never looked at. */
  function Search(term: Option<string>, languages: set<nat>, exercises: seq<Exercise>,
                  translate: string -> string, microThumbnail: string -> string): (r: SearchResponse)
    requires term.Some? && term.value != [] ==>
      forall e :: e in exercises && IsHit(e, term.value, languages) ==> e.base.Some?
    ensures r.NoSuggestions? <==> term.None? || term.value == []
    ensures r.Suggestions? ==>
      var hits := SearchExercises(term.value, languages, exercises);
      && |r.suggestions| == |hits|
      && forall i :: 0 <= i < |hits| ==> hits[i].base.Some? && Describes(r.suggestions[i], hits[i], translate)
  {
    if term.None? || term.value == [] then NoSuggestions
    else
      var hits := SearchExercises(term.value, languages, exercises);
      var entries := Seqs.Map(hits, SuggestionOf(translate, microThumbnail));
      SuggestionsDescribe(hits, entries, translate, microThumbnail);
      Suggestions(entries)
  }

  /** `ToSuggestion` as a value, so every use names the same function. */
  function SuggestionOf(translate: string -> string, microThumbnail: string -> string): Exercise -> Suggestion
  {
    e => ToSuggestion(e, translate, microThumbnail)
  }

  /** Helper: the entries built from exercises with a base describe them. */
  lemma SuggestionsDescribe(hits: seq<Exercise>, entries: seq<Suggestion>,
                            translate: string -> string, microThumbnail: string -> string)
    requires forall e :: e in hits ==> e.base.Some?
    requires entries == Seqs.Map(hits, SuggestionOf(translate, microThumbnail))
    ensures |entries| == |hits|
    ensures forall i :: 0 <= i < |hits| ==> hits[i].base.Some? && Describes(entries[i], hits[i], translate)
  {
    forall i | 0 <= i < |hits|
      ensures hits[i].base.Some? && Describes(entries[i], hits[i], translate)
    {
      assert hits[i] in hits;
      assert entries[i] == ToSuggestion(hits[i], translate, microThumbnail);
    }
  }

  /** One entry of the `thumbnails` response. */
  datatype ThumbnailEntry<O> = Thumbnail(url: string, settings: O) | OriginalUrl(url: string)

  /** `[]` for an unknown image, else a mapping from alias name to entry. */
  datatype ThumbnailsResponse<O> = EmptyList | ThumbnailMap(entries: map<string, ThumbnailEntry<O>>)

  /** `ExerciseImage.objects.get(pk=pk)`. */
  function FindImage(images: seq<Image>, pk: nat): (r: Option<Image>)
    ensures r.None? <==> forall i :: 0 <= i < |images| ==> images[i].id != pk
    ensures r.Some? ==> r.value in images && r.value.id == pk
    decreases |images|
  {
    if images == [] then None
    else if images[0].id == pk then Some(images[0])
    else FindImage(images[1..], pk)
  }

  /** `ExerciseImageViewSet.thumbnails`: one entry per configured alias (its
      rendered URL and settings), then `original`, which overrides an alias
      of that name. `render` is the thumbnailer. */
  function Thumbnails<O>(images: seq<Image>, pk: nat, aliases: map<string, O>,
                         render: (string, O) -> string): (r: ThumbnailsResponse<O>)
    ensures r.EmptyList? <==> forall i :: 0 <= i < |images| ==> images[i].id != pk
    ensures r.ThumbnailMap? ==> r.entries.Keys == aliases.Keys + {"original"}
    ensures r.ThumbnailMap? ==> r.entries["original"] == OriginalUrl(FindImage(images, pk).value.url)
    ensures r.ThumbnailMap? ==> forall a :: a in aliases && a != "original" ==>
      r.entries[a] == Thumbnail(render(FindImage(images, pk).value.url, aliases[a]), aliases[a])
  {
    match FindImage(images, pk)
    case None => EmptyList
    case Some(image) =>
      var thumbs := map a | a in aliases :: Thumbnail(render(image.url, aliases[a]), aliases[a]);
      ThumbnailMap(thumbs["original" := OriginalUrl(image.url)])
  }

  /** The error a non-integer language id raises inside the query. */
  datatype LookupError = InvalidId(value: string)

  /** The comment is on an exercise written in language `lang`. */
  predicate OnExerciseIn(c: ExerciseComment, exercises: seq<Exercise>, lang: int)
  {
    exists e :: e in exercises && e.id == c.exercise && e.language == lang
  }

  /** `ExerciseCommentViewSet.get_queryset`: all comments, or those on
      exercises in the given language. */
  function CommentQuery(comments: seq<ExerciseComment>, exercises: seq<Exercise>, language: Option<string>)
    : (r: Result<seq<ExerciseComment>, LookupError>)
    ensures (language.None? || language.value == []) ==> r == Ok(comments)
    ensures language.Some? && language.value != [] ==> (r.Err? <==> PyInt.Parse(language.value).None?)
    ensures r.Ok? && language.Some? && language.value != [] ==>
      forall c :: c in r.value <==> c in comments && OnExerciseIn(c, exercises, PyInt.Parse(language.value).value)
  {
    if language.None? || language.value == [] then Ok(comments)
    else
      match PyInt.Parse(language.value)
      case None => Err(InvalidId(language.value))
      case Some(lang) =>
        Ok(Seqs.Filter(comments, c => OnExerciseIn(c, exercises, lang)))
  }
}
