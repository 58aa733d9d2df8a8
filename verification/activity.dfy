/** The write hooks of the exercise API viewsets: which writes are accepted,
    and which append an entry to the activity stream. */
module Activity {
  import opened Wrappers

  /** The viewsets of the exercise API. */
  datatype ViewSet =
    | ExerciseBaseViewSet
    | ExerciseTranslationViewSet
    | ExerciseViewSet
    | ExerciseInfoViewset
    | ExerciseBaseInfoViewset
    | EquipmentViewSet
    | ExerciseCategoryViewSet
    | ExerciseImageViewSet
    | ExerciseVideoViewSet
    | ExerciseCommentViewSet
    | ExerciseAliasViewSet
    | ExerciseVariationViewSet
    | MuscleViewSet

  /** Viewsets derived from a read-only base accept no create or update. */
  predicate ReadOnly(v: ViewSet)
  {
    !(v.ExerciseBaseViewSet? || v.ExerciseTranslationViewSet? || v.ExerciseImageViewSet?
      || v.ExerciseAliasViewSet? || v.ExerciseVariationViewSet?)
  }

  /** Writable viewsets that override `perform_create`/`perform_update`. */
  predicate LogsWrites(v: ViewSet)
  {
    v.ExerciseBaseViewSet? || v.ExerciseTranslationViewSet? || v.ExerciseImageViewSet?
  }

  datatype WriteKind = Create | Update

  /** `created` or `updated`, the activity verb. */
  datatype Verb = Created | Updated

  /** One activity-stream entry: who did what to which object. */
  datatype Action<O> = Action(actor: string, verb: Verb, object: O)

  /** What a request does, in order: a row written by `serializer.save()`, or
      an action sent to the activity stream. */
  datatype Event<O> = Saved(object: O) | Logged(action: Action<O>)

  /** Why a write is refused: the viewset's `permission_classes` said no
      (403, checked in `initial()` before any handler runs), the viewset has
      no create or update handler (405), or the serializer rejected the
      payload (400, raised by `is_valid(raise_exception=True)` in the
      handler before the `perform_create`/`perform_update` hook runs). */
  datatype WriteError = PermissionDenied | MethodNotAllowed | Invalid

  function VerbFor(kind: WriteKind): (v: Verb)
    ensures v.Created? <==> kind.Create?
  {
    match kind
    case Create => Created
    case Update => Updated
  }

  /** The activity stream: the actions of a trace, in order. */
  function Stream<O>(trace: seq<Event<O>>): (r: seq<Action<O>>)
    ensures |r| <= |trace|
    ensures forall i :: 0 <= i < |r| ==> Logged(r[i]) in trace
    ensures (forall i :: 0 <= i < |trace| ==> trace[i].Saved?) ==> r == []
    decreases |trace|
  {
    if trace == [] then []
    else
      var last := trace[|trace| - 1];
      Stream(trace[..|trace| - 1]) + (if last.Logged? then [last.action] else [])
  }

  lemma {:induction false} StreamAppend<O>(a: seq<Event<O>>, b: seq<Event<O>>)
    ensures Stream(a + b) == Stream(a) + Stream(b)
    decreases |b|
  {
    if b == [] {
      assert a + b == a;
    } else {
      StreamAppend(a, b[..|b| - 1]);
      assert (a + b)[..|a + b| - 1] == a + b[..|b| - 1];
      assert (a + b)[|a + b| - 1] == b[|b| - 1];
    }
  }

  /** Helper: the stream of one save, optionally followed by one action. */
  lemma SaveThenLog<O>(instance: O, a: Action<O>, logged: bool)
    ensures Stream([Saved(instance)] + (if logged then [Logged(a)] else [])) == if logged then [a] else []
  {
    var added := [Saved(instance)] + (if logged then [Logged(a)] else []);
    assert Stream([Saved(instance)]) == [] by {
      assert [Saved(instance)][..0] == [];
    }
    if logged {
      assert added[..1] == [Saved(instance)];
    } else {
      assert added == [Saved(instance)];
    }
  }

  /** A create or update by `actor` through viewset `v` of `instance`, after
      the events in `trace`. `permitted` is the verdict of the viewset's
      `permission_classes` for this request: `CanEditExercises` on every
      writable viewset, the project default elsewhere. `valid` is the
      serializer's verdict on the payload. A refused write saves and logs
      nothing. The update hooks call `perform_create`, which saves
      through the serializer exactly like an update would. */
  function PerformWrite<O>(v: ViewSet, kind: WriteKind, permitted: bool, valid: bool, actor: string,
                           instance: O, trace: seq<Event<O>>)
    : (r: Result<seq<Event<O>>, WriteError>)
    ensures r == Err(PermissionDenied) <==> !permitted
    ensures r == Err(MethodNotAllowed) <==> permitted && ReadOnly(v)
    ensures r == Err(Invalid) <==> permitted && !ReadOnly(v) && !valid
    ensures r.Ok? ==> |r.value| > |trace| && r.value[..|trace|] == trace && r.value[|trace|] == Saved(instance)
    ensures r.Ok? && LogsWrites(v) ==>
      Stream(r.value) == Stream(trace) + [Action(actor, VerbFor(kind), instance)]
    ensures r.Ok? && !LogsWrites(v) ==> Stream(r.value) == Stream(trace)
  {
    if !permitted then Err(PermissionDenied)
    else if ReadOnly(v) then Err(MethodNotAllowed)
    else if !valid then Err(Invalid)
    else
      var a := Action(actor, VerbFor(kind), instance);
      var added := [Saved(instance)] + (if LogsWrites(v) then [Logged(a)] else []);
      StreamAppend(trace, added);
      SaveThenLog(instance, a, LogsWrites(v));
      Ok(trace + added)
  }

  /** The image viewset logs every valid write its permission check lets
      through, with the verb of the write, and nothing for an invalid one. */
  lemma ImageWritesLog<O>(kind: WriteKind, valid: bool, actor: string, instance: O, trace: seq<Event<O>>)
    ensures PerformWrite(ExerciseImageViewSet, kind, true, valid, actor, instance, trace).Ok? <==> valid
    ensures valid ==>
      Stream(PerformWrite(ExerciseImageViewSet, kind, true, valid, actor, instance, trace).value)
      == Stream(trace) + [Action(actor, VerbFor(kind), instance)]
  {
  }

  /** The alias and variation viewsets accept permitted, valid writes but,
      having no hooks of their own, leave the stream as it was. */
  lemma AliasAndVariationWritesNeverLog<O>(kind: WriteKind, valid: bool, actor: string, instance: O,
                                           trace: seq<Event<O>>)
    ensures PerformWrite(ExerciseAliasViewSet, kind, true, valid, actor, instance, trace).Ok? <==> valid
    ensures valid ==>
      Stream(PerformWrite(ExerciseAliasViewSet, kind, true, valid, actor, instance, trace).value) == Stream(trace)
    ensures PerformWrite(ExerciseVariationViewSet, kind, true, valid, actor, instance, trace).Ok? <==> valid
    ensures valid ==>
      Stream(PerformWrite(ExerciseVariationViewSet, kind, true, valid, actor, instance, trace).value)
      == Stream(trace)
  {
  }

  /** The comment viewset has logging hooks, but being read-only it never
      reaches them: every write through it is refused, by the permission
      check or else for the method. */
  lemma CommentWritesNeverLog<O>(kind: WriteKind, permitted: bool, valid: bool, actor: string, instance: O,
                                 trace: seq<Event<O>>)
    ensures PerformWrite(ExerciseCommentViewSet, kind, permitted, valid, actor, instance, trace)
         == Err(if permitted then MethodNotAllowed else PermissionDenied)
  {
  }
}
