# wger exercise core in Dafny

This project models the decision rules inside the exercise part of the wger workout manager and proves properties of them. Six areas are covered:

- **Exercise API.** The query-parameter filters of the exercise list endpoint use Python `int()` on single ids and on comma-separated id lists. The model also covers:
  - the autocomplete `search`: case-insensitive name/alias match within the request's languages, ordered by category name then name, de-duplicated, and mapped to suggestions;
  - the key set of an image's `thumbnails`;
  - the language filter on exercise comments;
  - the activity-log entries that creates and updates append.
- **The `Exercise` entity.** This covers field length bounds, the cache-invalidation effects of `save` and `delete` and their order, `variations`, `main_image`, and `set_author`.
- **Exercise views.** This covers the `clean_name` similarity check (edit distance below a threshold, among exercises of the same language and only for new exercises), the front/back muscle columns, the `cache_vary_on` key, and the list ordering.
- **`extract-i18n`.** This covers `cleanup_name`, the order in which items are collected, and the exact text of the `.tpl`, `.tsx`, `.arb` and `.dart` outputs, described line by line.
- **History views.** `overview` shows the activity stream unchanged. `overview2` pairs each history record that has a predecessor with the diff against it. Both views sit behind the `exercises.change_exercise` permission.

The database is modelled as immutable values. An `Exercise` holds its `ExerciseBase` directly instead of through a foreign key, and querysets are sequences.

The following are parameters of the model:
- the languages (`load_item_languages`, `load_language`);
- gettext `_`;
- the thumbnail renderer;
- the thumbnail alias configuration;
- `prev_record` and `diff_against`;
- the edit-distance threshold;
- the requesting user's permissions, host and username.

Python `int()`, `str.lower()`/`casefold()` and `str.split()` are written out on ASCII text.

Files:
- `wrappers.dfy`: `Option` and `Result`.
- `seqs.dfy`: `Subseq`, `Filter`, `Map`.
- `text.dfy`: `Split`, `Join`, lower-casing, substring search and string order.
- `sorting.dfy`: stable insertion sort and de-duplication by key.
- `pyint.dfy`: Python `int()` on strings.
- `entities.dfy`: entities and field validation.
- `exercise_model.dfy`: `Exercise` methods.
- `exercise_api.dfy`: API views.
- `activity.dfy`: activity-log hooks.
- `exercise_views.dfy`: form and detail views.
- `extract_i18n.dfy`: the management command.
- `history.dfy`: history views.

## Model

| member | source | states |
|---|---|---|
| PyInt.Parse | wger/exercises/api/views.py:172-202 | Python `int()` on a string: the empty string gives no number; `ParseGrammar` states exactly which texts it accepts and their values |
| PyInt.ParseGrammar | wger/exercises/api/views.py:172-202 | `int()` gives `v` exactly when the text is whitespace, an optional `+` or `-`, a group of digits with single underscores between them of at most 4300 digits, and whitespace, and `v` is the digits' value with the sign applied |
| PyInt.StripPadding | wger/exercises/api/views.py:172-202 | whitespace added around a text does not change what stripping keeps |
| PyInt.StripBlank | wger/exercises/views/exercises.py:174-178 | stripping leaves nothing exactly when the text is whitespace only |
| PyInt.StripIdempotent | wger/exercises/views/exercises.py:174-178 | stripping a stripped text changes nothing |
| PyInt.ParseAlphabet | wger/exercises/api/views.py:172-202 | text `int()` accepts consists only of whitespace, digits, signs and underscores, and holds at least one digit |
| PyInt.ParseDigits | wger/exercises/api/views.py:172-202 | plain decimal text of 1 to 4300 digits reads as its decimal value |
| PyInt.ParseTooManyDigits | wger/exercises/api/views.py:172-202 | plain decimal text of more than 4300 digits is refused, as CPython's digit limit makes `int()` raise |
| PyInt.ParseShow | wger/exercises/api/views.py:172-202 | every integer of at most 4300 digits written in decimal reads back as itself |
| PyInt.ShowNatValue | wger/exercises/api/views.py:172-202 | the digits of a natural number evaluate to that number |
| PyInt.CommaNeverParses | wger/exercises/api/views.py:179-196 | no text containing a comma is an integer, so an unsplit list never parses |
| PyInt.StripUntouched | wger/exercises/api/views.py:172-202 | text with no surrounding whitespace is unchanged by the strip `int()` performs |
| PyInt.StripKeeps | wger/exercises/api/views.py:172-202 | stripping whitespace never removes a non-whitespace character |
| PyInt.TrimStart | wger/exercises/api/views.py:172-202 | removes exactly the leading whitespace |
| PyInt.TrimEnd | wger/exercises/api/views.py:172-202 | removes exactly the trailing whitespace |
| PyInt.DigitsAreGroup | wger/exercises/api/views.py:172-202 | a non-empty run of digits is a valid digit group |
| PyInt.NotGroup | wger/exercises/api/views.py:179-196 | a piece containing a comma is not a digit group |
| Text.Split | wger/exercises/api/views.py:181 | `str.split` on one character: at least one piece, no piece holds the separator, and the first piece is the text up to the first separator |
| Text.JoinSplit | wger/exercises/api/views.py:181 | joining the pieces of a split gives back the text |
| Text.SplitJoin | wger/exercises/api/views.py:181 | splitting joined separator-free pieces gives back the pieces |
| Text.SplitTwo | wger/exercises/views/exercises.py:145 | two separator-free pieces joined by the separator split back into exactly those two |
| Text.JoinConcat | wger/core/management/commands/extract-i18n.py:74-79 | appending one text to another joins the last line of the first with the first line of the second |
| Text.LowerIdempotent | wger/exercises/views/exercises.py:210 | lower-casing twice is lower-casing once |
| Text.ContainsAt | wger/exercises/api/views.py:222 | the substring test holds iff the needle occurs at some position |
| Text.StrLeTotal | wger/exercises/api/views.py:226 | the string order compares any two names |
| Text.StrLeTransitive | wger/exercises/api/views.py:226 | the string order is transitive |
| Text.StrLeAntisymmetric | wger/exercises/api/views.py:226 | two strings each at most the other are equal |
| ExerciseApi.ParsePieces | wger/exercises/api/views.py:181 | the comprehension `[int(m) for m in pieces]` succeeds iff every piece parses, and then yields each piece's value in order |
| ExerciseApi.ParseIdList | wger/exercises/api/views.py:179-196 | a comma list yields ids iff every piece between commas parses, one id per piece |
| ExerciseApi.ParseIdListRoundTrip | wger/exercises/api/views.py:179-196 | a non-empty list of ids of at most 4300 digits each, written with commas, parses back to the same ids |
| ExerciseApi.DoubleCommaRejectsList | wger/exercises/api/views.py:179-183 | `"1,,2"` is rejected as a whole |
| ExerciseApi.TrailingCommaRejectsList | wger/exercises/api/views.py:179-183 | `"1,2,"` is rejected as a whole |
| ExerciseApi.IdFilter | wger/exercises/api/views.py:173-177 | a single-id filter is applied iff the parameter is present, non-empty and `int()`-parsable, with the parsed value |
| ExerciseApi.IdListFilter | wger/exercises/api/views.py:179-196 | a list filter is applied iff the parameter is present, non-empty and every piece parses |
| ExerciseApi.ParseFilters | wger/exercises/api/views.py:167-202 | each single-id filter is set exactly when its parameter is non-empty and `int()` accepts it, with that value; each list filter exactly when every comma-separated piece is accepted, with the pieces' values in order |
| ExerciseApi.FiltersReadOwnParams | wger/exercises/api/views.py:167-202 | two query strings that agree on a parameter give the same filter for it, whatever else they hold |
| ExerciseApi.Matches | wger/exercises/api/views.py:173-200 | with no filter applied every exercise passes; once any filter is applied, an exercise without a base fails it |
| ExerciseApi.Apply | wger/exercises/api/views.py:185-200 | applying the filters keeps table order and exactly the exercises that pass them |
| ExerciseApi.ExerciseQuery | wger/exercises/api/views.py:162-204 | the result keeps the order of the exercises and holds exactly those that pass every applied filter |
| ExerciseApi.NoParamsNoFilter | wger/exercises/api/views.py:162-204 | without any of the five parameters every exercise is returned |
| ExerciseApi.BadValueIsIgnored | wger/exercises/api/views.py:173-202 | an unparsable value gives the same filters and the same result as leaving the parameter out |
| ExerciseApi.BadValueSameFilters | wger/exercises/api/views.py:173-202 | an unparsable value for one parameter leaves all five filters as if it were absent |
| ExerciseApi.FilterAll | wger/exercises/api/views.py:162-204 | a filter every element passes changes nothing |
| ExerciseApi.SearchOrderIsTotalPreorder | wger/exercises/api/views.py:226 | ordering by (category name, name) is a total preorder |
| ExerciseApi.Hits | wger/exercises/api/views.py:222-226 | the hits are exactly the exercises in the languages whose name or an alias contains the term, ignoring case |
| ExerciseApi.OrderForSearch | wger/exercises/api/views.py:226 | the ordering step is sorted by (category name, name) and a permutation |
| ExerciseApi.SearchExercises | wger/exercises/api/views.py:222-227 | every result is a hit, every hit's id appears, results are ordered by (category name, name), and no id occurs twice |
| ExerciseApi.ToSuggestion | wger/exercises/api/views.py:229-247 | a suggestion has value and name equal to the exercise name, its id and translated category, and image and thumbnail both absent exactly when there is no main image |
| ExerciseApi.Search | wger/exercises/api/views.py:214-252 | a missing or empty term gives an object without suggestions and reads no exercise; otherwise there is one suggestion per search result, in order, describing it |
| ExerciseApi.SuggestionsDescribe | wger/exercises/api/views.py:229-247 | every entry built from an exercise with a base is that exercise's autocomplete entry |
| ExerciseApi.FindImage | wger/exercises/api/views.py:336-339 | looking up an image by id finds one with that id, or none iff no image has it |
| ExerciseApi.Thumbnails | wger/exercises/api/views.py:332-349 | an empty list for an unknown id; otherwise keys are exactly the aliases plus `original`, which holds the image URL |
| ExerciseApi.CommentQuery | wger/exercises/api/views.py:398-405 | all comments without a language; with one, exactly the comments on exercises in it, and an error for a non-integer id |
| Activity.VerbFor | wger/exercises/api/views.py:90-102 | creates are logged as `created` and updates as `updated` |
| Activity.Stream | wger/exercises/api/views.py:90-102 | the activity stream holds no more actions than the trace has events, each one logged in the trace, and is empty when nothing was logged |
| Activity.StreamAppend | wger/exercises/api/views.py:90-102 | the activity stream of two traces in sequence is the streams in sequence |
| Activity.SaveThenLog | wger/exercises/api/views.py:90-102 | a save followed by an optional log adds exactly the logged action |
| Activity.PerformWrite | wger/exercises/api/views.py:74-141 | a write the permission check refuses is denied before anything is saved or logged; a permitted write to a read-only viewset is refused for its method; a permitted write to a writable viewset whose payload the serializer rejects is refused as invalid; otherwise the row is saved first, and the viewsets with hooks (base, translation, image) then append exactly one action with the write's verb, while the others append none |
| Activity.ImageWritesLog | wger/exercises/api/views.py:351-371 | a permitted create or update through the image viewset is accepted exactly when its payload is valid, and then appends one action with its verb |
| Activity.AliasAndVariationWritesNeverLog | wger/exercises/api/views.py:430-447 | permitted alias and variation writes are accepted exactly when their payload is valid, and then leave the activity stream unchanged |
| Activity.CommentWritesNeverLog | wger/exercises/api/views.py:389-427 | the comment viewset is read-only, so every write is refused, by the permission check or for its method, and its logging hooks are never reached |
| Entities.Validate | wger/exercises/models/exercise.py:52-62 | with surrounding whitespace stripped first: through the API an exercise is valid iff its name is 1 to 200 characters and its description 40 to 2000; through `ExerciseForm` the description may instead be empty or of any length from 40 up; a valid record is saved stripped; each error names the bound that failed |
| Entities.BlankMeansWhitespace | wger/exercises/models/exercise.py:52-62 | a name, or an API description, is reported blank exactly when it is whitespace only, and an accepted name is never whitespace only |
| Entities.PaddingIgnored | wger/exercises/views/exercises.py:174-178 | whitespace around the name or the description changes neither the verdict, nor the errors, nor the saved record |
| Entities.ValidateSettles | wger/exercises/models/exercise.py:52-62 | a saved record validates again to itself |
| Entities.PathsDiffer | wger/exercises/views/exercises.py:174-178 | the form accepts exactly the blank or over-long descriptions the API refuses, and everything the API accepts |
| ExerciseModel.FragmentKeys | wger/exercises/models/exercise.py:125-128 | the three overview fragments for every language, and nothing else |
| ExerciseModel.WorkoutKeys | wger/exercises/models/exercise.py:131-132 | one canonical-form key per setting of the base, for the setting's workout |
| ExerciseModel.InvalidationKeys | wger/exercises/models/exercise.py:125-132 | fragment keys for every language, then workout keys for every setting, and nothing else |
| ExerciseModel.Invalidations | wger/exercises/models/exercise.py:125-132 | one invalidation per key |
| ExerciseModel.Save | wger/exercises/models/exercise.py:118-132 | persisting comes first, then exactly the invalidation keys |
| ExerciseModel.Delete | wger/exercises/models/exercise.py:134-149 | exactly the invalidation keys come first, then the removal |
| ExerciseModel.SaveDeleteSameInvalidations | wger/exercises/models/exercise.py:118-149 | save and delete invalidate the same keys in the same order; save never removes and delete never persists |
| ExerciseModel.GroupTranslations | wger/exercises/models/exercise.py:190-193 | exactly the exercises in the language whose base belongs to the variation group |
| ExerciseModel.Variations | wger/exercises/models/exercise.py:184-194 | empty without a variation group; otherwise exactly the same-language exercises of bases in the group |
| ExerciseModel.MainImageIndex | wger/exercises/models/exercise.py:199-204 | the position of the first accepted main image, or none iff there is no such image |
| ExerciseModel.MainImage | wger/exercises/models/exercise.py:199-204 | the first image that is both accepted and main, or none iff no such image exists |
| ExerciseModel.HostWithoutPort | wger/exercises/models/exercise.py:253 | the host up to its first `:`, which contains no `:` |
| ExerciseModel.SetAuthor | wger/exercises/models/exercise.py:245-267 | a non-empty author is kept; otherwise it becomes the host without port with the add permission, or the username without it; admins are notified exactly when the permission is missing; nothing else changes |
| ExerciseModel.SetAuthorSettles | wger/exercises/models/exercise.py:245-256 | once an author has been set, a second call leaves it unchanged |
| ExerciseViews.Lev | wger/exercises/views/exercises.py:210 | the edit distance is at most the longer length |
| ExerciseViews.Min3 | wger/exercises/views/exercises.py:210 | the least of three numbers |
| ExerciseViews.LevLowerBound | wger/exercises/views/exercises.py:210 | the edit distance is at least the difference in length |
| ExerciseViews.LevSelf | wger/exercises/views/exercises.py:210 | a string is at distance 0 from itself |
| ExerciseViews.LevZeroIffEqual | wger/exercises/views/exercises.py:210 | the distance is 0 iff the strings are equal |
| ExerciseViews.LevSymmetric | wger/exercises/views/exercises.py:210 | the distance does not depend on argument order |
| ExerciseViews.LevStep | wger/exercises/views/exercises.py:210 | the edit-distance recurrence on prefixes |
| ExerciseViews.LevEmptyPrefix | wger/exercises/views/exercises.py:210 | the distance from an empty prefix is the other prefix's length |
| ExerciseViews.NextRow | wger/exercises/views/exercises.py:210 | computes one row of the edit-distance table from the previous one |
| ExerciseViews.EditDistance | wger/exercises/views/exercises.py:210 | the dynamic-programming loop computes the edit distance |
| ExerciseViews.TooSimilar | wger/exercises/views/exercises.py:210-211 | a too-similar exercise is in the form's language and differs in length by less than the threshold; a same-language name equal up to case is too similar iff the threshold is positive |
| ExerciseViews.FirstTooSimilar | wger/exercises/views/exercises.py:205-211 | the first same-language exercise closer than the threshold, or none iff there is none |
| ExerciseViews.FirstTooSimilarUnique | wger/exercises/views/exercises.py:205-211 | the first offending exercise is unique |
| ExerciseViews.CleanName | wger/exercises/views/exercises.py:197-220 | with an id the name is accepted unchanged; a new name is rejected iff a same-language exercise is strictly closer than the threshold, citing the first such exercise |
| ExerciseViews.ThresholdIsExclusive | wger/exercises/views/exercises.py:211 | a distance equal to the threshold is accepted |
| ExerciseViews.OtherLanguageIgnored | wger/exercises/views/exercises.py:205-207 | inserting an exercise of another language anywhere does not change the outcome |
| ExerciseViews.FrontBackMultiset | wger/exercises/views/exercises.py:128-131 | front and back muscles together are exactly the muscles |
| ExerciseViews.FrontBackSplit | wger/exercises/views/exercises.py:128-131 | the front and back filters partition a muscle list, keeping its order |
| ExerciseViews.MuscleColumnsOf | wger/exercises/views/exercises.py:128-131 | main and secondary muscles are each split into disjoint front and back columns |
| ExerciseViews.CacheVaryOn | wger/exercises/views/exercises.py:145 | the key splits at its one dash into the rendered exercise id and language id |
| ExerciseViews.CacheVaryOnRoundTrip | wger/exercises/views/exercises.py:145 | the key `"<exercise id>-<language id>"` reads back as the two ids, for ids of at most 4300 digits |
| ExerciseViews.CacheVaryOnInjective | wger/exercises/views/exercises.py:145 | different id pairs give different keys |
| ExerciseViews.ListBases | wger/exercises/views/exercises.py:101-107 | the bases are a permutation, ordered by category id |
| Sorting.SortBy | wger/exercises/views/exercises.py:105-106 | sorting gives a sorted permutation |
| Sorting.Insert | wger/exercises/views/exercises.py:105-106 | inserting into a sorted list keeps it sorted and adds exactly the new element |
| Sorting.DistinctBy | wger/exercises/api/views.py:226 | de-duplication keeps order, keeps one element per key, and drops no key |
| Sorting.SubseqSorted | wger/exercises/api/views.py:226 | dropping elements from a sorted list keeps it sorted |
| Sorting.SameMembers | wger/exercises/api/views.py:226 | permutations have the same members |
| ExtractI18n.Replace | wger/core/management/commands/extract-i18n.py:44-48 | `str.replace` on one character changes exactly that character |
| ExtractI18n.CleanChar | wger/core/management/commands/extract-i18n.py:42-48 | a cleaned character is neither upper-case nor replaced, and a character is left alone exactly when it is neither |
| ExtractI18n.CleanupName | wger/core/management/commands/extract-i18n.py:42-48 | length is kept, each character is cleaned on its own, and no upper-case letter or replaced character remains |
| ExtractI18n.CleanupNameIdempotent | wger/core/management/commands/extract-i18n.py:42-48 | cleaning twice is cleaning once |
| ExtractI18n.CleanupNameNewline | wger/core/management/commands/extract-i18n.py:42-48 | the key contains a line break iff the name does |
| ExtractI18n.CleanupNameCollides | wger/core/management/commands/extract-i18n.py:42-48 | different names can give the same key |
| ExtractI18n.Items | wger/core/management/commands/extract-i18n.py:51-55 | categories, then equipment, then repetition units, in order |
| ExtractI18n.AccumulateLines | wger/core/management/commands/extract-i18n.py:61-62 | appending entries one by one produces the chained lines of the entries |
| ExtractI18n.TplText | wger/core/management/commands/extract-i18n.py:60-62 | the `.tpl` text as the loop builds it; `TplLines` states its lines |
| ExtractI18n.TplLines | wger/core/management/commands/extract-i18n.py:59-63 | the template is the `load` line, one `translate` line per item in order with the name verbatim, and a final line break |
| ExtractI18n.TsxText | wger/core/management/commands/extract-i18n.py:69-79 | the `.tsx` text as the loop builds it; `TsxSplit` states its lines |
| ExtractI18n.TsxSplit | wger/core/management/commands/extract-i18n.py:68-80 | the component is its header, one `t("exercises.<key>")` call per item with the first on the hook's line, and the footer |
| ExtractI18n.ArbText | wger/core/management/commands/extract-i18n.py:86-88 | the `.arb` text as the loop builds it; `ArbLines` states its lines |
| ExtractI18n.ArbLines | wger/core/management/commands/extract-i18n.py:85-89 | one `"<key>": "<name>",` line per item, in order |
| ExtractI18n.CaseLines | wger/core/management/commands/extract-i18n.py:96-100 | each item contributes its `case` line, its `return` line with the cleaned key, and the indentation line, in order |
| ExtractI18n.DartText | wger/core/management/commands/extract-i18n.py:94-106 | the `.dart` text as the loop builds it; `CaseLines` and `DartSplit` state its lines |
| ExtractI18n.DartSplit | wger/core/management/commands/extract-i18n.py:93-105 | the Dart function is the signature, the switch, the cases in order, and a default returning `'NOT TRANSLATED'` |
| History.Records | wger/exercises/views/history.py:56-58 | the records of the entries, in order |
| History.Overview | wger/exercises/views/history.py:34-47 | with the permission the page shows the whole stream unfiltered; without it the user is sent to log in |
| History.PairWithPrevious | wger/exercises/views/history.py:55-58 | one entry per record that has a predecessor, in history order, each with the diff against its own predecessor |
| History.PairStep | wger/exercises/views/history.py:55-58 | one turn of the loop keeps the pairing invariant: a record with a predecessor adds exactly one entry carrying its diff, any other record adds none |
| History.Overview2 | wger/exercises/views/history.py:50-60 | with the permission the page holds the pairing; without it the user is sent to log in |

## Left out

- Django and DRF plumbing is not modelled: routing, serializers, viewset base classes, `render`, redirects and the login redirect mechanics. The verdict of a permission check, `CanEditExercises` on the API viewsets or `exercises.change_exercise` on the history pages, is a boolean input. `CanEditExercises` is not part of this model.
- DRF `filterset_fields` and `ordering_fields` are not modelled. They are declarative filters handled by a library.
- The ORM is not modelled: collation, duplicate rows from multi-valued joins, `auto_now` timestamps, `uuid4` and cascades. Text ordering is code-point order.
- Entities.Validate: stripping removes ASCII whitespace only. Python's `str.strip()` also removes Unicode whitespace.
- Entities.Validate: the API path follows the bounds the exercise serializer takes over from the model fields. The serializer is not part of this model. The form path follows `ExerciseForm`'s own `description` field. Django leaves an empty, optional form value out of model validation, and a `TextField` does not enforce its `max_length`.
- PyInt.ParseShow: stated for integers of at most 4300 digits. Beyond that CPython refuses the conversion both ways: `int()` raises (modelled in `Parse`) and so does `str()`.
- ExerciseApi.ParseIdListRoundTrip: stated for ids of at most 4300 digits, for the same reason as `ParseShow`.
- ExerciseViews.CacheVaryOnRoundTrip: stated for ids of at most 4300 digits, for the same reason as `ParseShow`. `CacheVaryOnInjective` needs no such bound.
- `str()` and `format` of an integer over 4300 digits raise in CPython. `PyInt.Show` does not model that, since database ids never come near it.
- Python `int()` accepts only ASCII here. Non-ASCII digits and whitespace, which Python also accepts, are not modelled.
- `lower()` and `casefold()` fold only ASCII letters.
- Email is not modelled: `send_email`, and the `mail_admins` call in `set_author`, which appears only as the notice it would send.
- The cache backend, the file writes and the stdout messages of `extract-i18n` are not modelled. Only the strings are.
- `description_clean` (`bleach.clean`), `get_absolute_url`, `__str__` and the proxy properties of `Exercise` are not modelled. They only forward to other code.
- The `videos` property is not modelled. Videos are outside the modelled rules.
- Foreign calls are parameters of the model:
  - the thumbnail renderer and alias table;
  - gettext;
  - `load_item_languages` and `load_language`;
  - the `accepted()` queryset (a flag on each image);
  - `prev_record` and `diff_against`.
- The `HistoryModes` values are not shown. The verbs are the two cases `Created` and `Updated`.
- `process_log_entries` and the logged-in workout chart in `view` are not modelled.
- `wger/manager/migrations/0009_auto_20201202_1455.py` is a generated schema migration with decimal choices and no behaviour.
- ExerciseModel.Save: requires the exercise to have a base. The source dereferences the nullable `exercise_base` and would fail without one.
- ExerciseModel.Delete: requires a base, for the same reason as `Save`.
- ExerciseModel.Variations: requires a base, for the same reason as `Save`.
- ExerciseModel.MainImage: requires a base, for the same reason as `Save`.
- ExerciseApi.Search: for a non-empty term, requires every hit to have a base, since each hit's category and images are read through it. The server error a base-less hit would cause is not modelled. Exercises that are not hits, and every exercise when the term is empty, may lack a base.
- ExerciseViews.MuscleColumnsOf: requires a base, since the muscles are read from it.
- ExerciseApi.SearchExercises: de-duplication is by exercise id. The database's `DISTINCT` over whole rows coincides with this because ids are unique.
- ExerciseApi.Thumbnails: the image pk is a natural number. A non-integer pk in the URL is not modelled.
- ExerciseApi.ParseIdListRoundTrip: stated for non-empty lists. An empty parameter is not a list in the source: it is skipped before splitting.
- Activity.PerformWrite: the serializer's verdict on the payload is a boolean input. The serializers are not part of this model. The 404 of an update to a missing object is not modelled either: the instance is given.
- ExerciseViews.EditDistance: `wger.utils.helpers.levenshtein` is not part of this model. It is taken to compute the standard unit-cost Levenshtein distance that `Lev` defines.
- ExerciseModel.MainImage: the image query set's ordering is not modelled. `base.images` holds the images in that order.
- Activity.PerformWrite: every `perform_update` calls the parent's `perform_create`. The model therefore treats an update as a save followed by the `updated` log entry, which is what the code does.
- ExerciseViews.CleanName: an instance id of 0 counts as new, as Python's truthiness test on the id does.
- ExtractI18n.TsxSplit: the React output is modelled although it is not among the three outputs the command's comments describe as copied by hand. Its lines are stated exactly.
