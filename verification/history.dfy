/** The two exercise history pages: the raw activity stream, and the
    historical records of exercises paired with their field-level diffs. Both
    sit behind the `exercises.change_exercise` permission. */
module History {
  import opened Wrappers
  import Seqs

  /** A rendered page, or the login redirect `permission_required` issues. */
  datatype Page<T> = RedirectToLogin | Rendered(content: T)

  /** One row of the diff page: a historical record and its delta. */
  datatype Entry<R, D> = Entry(record: R, delta: D)

  /** The records of a list of entries, in order. */
  function Records<R, D>(entries: seq<Entry<R, D>>): (r: seq<R>)
    ensures |r| == |entries|
    ensures forall i :: 0 <= i < |entries| ==> r[i] == entries[i].record
  {
    Seqs.Map(entries, (e: Entry<R, D>) => e.record)
  }

  /** `overview`: the whole action stream, passed through unfiltered. */
  function Overview<A>(canChangeExercise: bool, stream: seq<A>): (r: Page<seq<A>>)
    ensures r.Rendered? <==> canChangeExercise
    ensures r.Rendered? ==> r.content == stream
  {
    if canChangeExercise then Rendered(stream) else RedirectToLogin
  }

  /** What the loop of `overview2` keeps about the entries `out` built from
      the records `done`: exactly the records with a previous record, in
      order, each with its diff. */
  ghost predicate Paired<R(!new), D>(out: seq<Entry<R, D>>, done: seq<R>, prev: R -> Option<R>, diff: (R, R) -> D)
  {
    && (forall x :: multiset(Records(out))[x] == if prev(x).Some? then multiset(done)[x] else 0)
    && Seqs.Subseq(Records(out), done)
    && (forall e :: e in out ==> prev(e.record).Some? && e.delta == diff(e.record, prev(e.record).value))
  }

  /** Helper: one turn of the loop keeps `Paired`. */
  lemma PairStep<R(!new), D>(out: seq<Entry<R, D>>, done: seq<R>, entry: R, prev: R -> Option<R>, diff: (R, R) -> D)
    requires Paired(out, done, prev, diff)
    ensures prev(entry).Some? ==>
      Paired(out + [Entry(entry, diff(entry, prev(entry).value))], done + [entry], prev, diff)
    ensures prev(entry).None? ==> Paired(out, done + [entry], prev, diff)
  {
    if prev(entry).Some? {
      var next := out + [Entry(entry, diff(entry, prev(entry).value))];
      assert Records(next) == Records(out) + [entry];
      Seqs.SubseqAppendBoth(Records(out), done, entry);
    } else {
      Seqs.SubseqAppendRight(Records(out), done, entry);
    }
  }

  /** The loop of `overview2` over the historical records: every record with a
      previous record, in order, with its diff against that previous record.
      `prev` stands for `prev_record` and `diff` for `diff_against`. */
  method PairWithPrevious<R(!new), D>(history: seq<R>, prev: R -> Option<R>, diff: (R, R) -> D)
    returns (out: seq<Entry<R, D>>)
    ensures forall x :: multiset(Records(out))[x] == if prev(x).Some? then multiset(history)[x] else 0
    ensures Seqs.Subseq(Records(out), history)
    ensures forall e :: e in out ==> prev(e.record).Some? && e.delta == diff(e.record, prev(e.record).value)
  {
    out := [];
    var i := 0;
    while i < |history|
      invariant 0 <= i <= |history|
      invariant Paired(out, history[..i], prev, diff)
    {
      var entry := history[i];
      assert history[..i + 1] == history[..i] + [entry];
      PairStep(out, history[..i], entry, prev, diff);
      var p := prev(entry);
      if p.Some? {
        out := out + [Entry(entry, diff(entry, p.value))];
      }
      i := i + 1;
    }
    assert history[..i] == history;
  }

  /** `overview2`: the paired records, for users who may change exercises. */
  method Overview2<R(!new), D>(canChangeExercise: bool, history: seq<R>, prev: R -> Option<R>, diff: (R, R) -> D)
    returns (page: Page<seq<Entry<R, D>>>)
    ensures page.Rendered? <==> canChangeExercise
    ensures page.Rendered? ==> forall x ::
      multiset(Records(page.content))[x] == if prev(x).Some? then multiset(history)[x] else 0
    ensures page.Rendered? ==> Seqs.Subseq(Records(page.content), history)
    ensures page.Rendered? ==> forall e :: e in page.content ==>
      prev(e.record).Some? && e.delta == diff(e.record, prev(e.record).value)
  {
    if !canChangeExercise {
      return RedirectToLogin;
    }
    var entries := PairWithPrevious(history, prev, diff);
    page := Rendered(entries);
  }
}
