/** Small value types shared by every module of the model. */
module Common {

  /** An optional value: `undefined`/`null` in TypeScript, `None` in Python. */
  datatype Option<+T> = None | Some(value: T)

  /** What a per-record parser of the data-preparation scripts does with one record:
      keep it, skip it, or raise an exception that aborts the whole script. */
  datatype Outcome<+T> = Kept(value: T) | Skipped | Raised(error: string)

  /** The result of a whole script step: its value, or the exception that aborted it. */
  datatype Result<+T> = Ok(value: T) | Failed(error: string)

  /** The records a loop keeps, in order: `for x in items: r = f(x); if r: acc.append(r)`
      when no record raises. */
  function KeptValues<A, R>(items: seq<A>, f: A -> Outcome<R>): seq<R> {
    if items == [] then []
    else (if f(items[0]).Kept? then [f(items[0]).value] else []) + KeptValues(items[1..], f)
  }

  /** The same loop appending to `acc`, aborted by the first record that raises. */
  function Collect<A, R>(acc: seq<R>, items: seq<A>, f: A -> Outcome<R>): Result<seq<R>>
    decreases |items|
  {
    if items == [] then Ok(acc)
    else match f(items[0])
      case Raised(e) => Failed(e)
      case Kept(v) => Collect(acc + [v], items[1..], f)
      case Skipped => Collect(acc, items[1..], f)
  }

  /** The loop fails exactly when some record raises, with the first record's
      error; otherwise it appends the kept records, in order, to `acc`. */
  lemma CollectSpec<A, R>(acc: seq<R>, items: seq<A>, f: A -> Outcome<R>)
    ensures Collect(acc, items, f).Ok? <==> forall i :: 0 <= i < |items| ==> !f(items[i]).Raised?
    ensures Collect(acc, items, f).Ok? ==> Collect(acc, items, f).value == acc + KeptValues(items, f)
    ensures Collect(acc, items, f).Failed? ==> exists i :: 0 <= i < |items| && f(items[i]) == Raised(Collect(acc, items, f).error)
  {
    CollectOk(acc, items, f);
    if Collect(acc, items, f).Ok? {
      CollectValue(acc, items, f);
    } else {
      CollectError(acc, items, f);
    }
  }

  /** The loop succeeds exactly when no record raises. */
  lemma {:induction false} CollectOk<A, R>(acc: seq<R>, items: seq<A>, f: A -> Outcome<R>)
    ensures Collect(acc, items, f).Ok? <==> forall i :: 0 <= i < |items| ==> !f(items[i]).Raised?
    decreases |items|
  {
    if items != [] && !f(items[0]).Raised? {
      var next := if f(items[0]).Kept? then acc + [f(items[0]).value] else acc;
      CollectOk(next, items[1..], f);
      assert forall i :: 1 <= i < |items| ==> items[i] == items[1..][i - 1];
    }
  }

  /** A loop that succeeds appends the kept records, in order. */
  lemma {:induction false} CollectValue<A, R>(acc: seq<R>, items: seq<A>, f: A -> Outcome<R>)
    requires Collect(acc, items, f).Ok?
    ensures Collect(acc, items, f).value == acc + KeptValues(items, f)
    decreases |items|
  {
    if items != [] {
      var next := if f(items[0]).Kept? then acc + [f(items[0]).value] else acc;
      CollectValue(next, items[1..], f);
      if f(items[0]).Kept? {
        assert acc + [f(items[0]).value] + KeptValues(items[1..], f) == acc + ([f(items[0]).value] + KeptValues(items[1..], f));
      }
    }
  }

  /** A loop that fails fails with the error of a record that raises. */
  lemma {:induction false} CollectError<A, R>(acc: seq<R>, items: seq<A>, f: A -> Outcome<R>)
    requires Collect(acc, items, f).Failed?
    ensures exists i :: 0 <= i < |items| && f(items[i]) == Raised(Collect(acc, items, f).error)
    decreases |items|
  {
    if !f(items[0]).Raised? {
      var next := if f(items[0]).Kept? then acc + [f(items[0]).value] else acc;
      CollectError(next, items[1..], f);
      var i :| 0 <= i < |items[1..]| && f(items[1..][i]) == Raised(Collect(next, items[1..], f).error);
      assert f(items[i + 1]) == Raised(Collect(acc, items, f).error);
    }
  }

  /** A record is kept exactly when its own outcome keeps it. */
  lemma {:induction false} KeptValuesMembers<A, R>(items: seq<A>, f: A -> Outcome<R>, v: R)
    ensures v in KeptValues(items, f) <==> exists i :: 0 <= i < |items| && f(items[i]) == Kept(v)
  {
    if items != [] {
      KeptValuesMembers(items[1..], f, v);
      if v in KeptValues(items[1..], f) {
        var i :| 0 <= i < |items[1..]| && f(items[1..][i]) == Kept(v);
        assert f(items[i + 1]) == Kept(v);
      }
      if exists i :: 0 <= i < |items| && f(items[i]) == Kept(v) {
        var i :| 0 <= i < |items| && f(items[i]) == Kept(v);
        if i > 0 {
          assert f(items[1..][i - 1]) == Kept(v);
        }
      }
    }
  }

  /** `for x in items: acc = collect(acc, x)` with its first steps unrolled: the
      invariant of the loops that implement `Collect`. */
  lemma CollectStep<A, R>(acc: seq<R>, items: seq<A>, f: A -> Outcome<R>, i: nat)
    requires i < |items|
    ensures f(items[i]).Raised? ==> Collect(acc, items[i..], f) == Failed(f(items[i]).error)
    ensures f(items[i]).Kept? ==> Collect(acc, items[i..], f) == Collect(acc + [f(items[i]).value], items[i + 1..], f)
    ensures f(items[i]).Skipped? ==> Collect(acc, items[i..], f) == Collect(acc, items[i + 1..], f)
  {
    assert items[i..][1..] == items[i + 1..];
  }

  /** When every record is kept, the loop keeps each of them, in order. */
  lemma {:induction false} KeptAll<A, R>(items: seq<A>, f: A -> Outcome<R>)
    requires forall i :: 0 <= i < |items| ==> f(items[i]).Kept?
    ensures |KeptValues(items, f)| == |items|
    ensures forall i :: 0 <= i < |items| ==> KeptValues(items, f)[i] == f(items[i]).value
  {
    if items != [] {
      assert forall i :: 0 <= i < |items[1..]| ==> items[1..][i] == items[i + 1];
      KeptAll(items[1..], f);
    }
  }

  /** No record makes the parser raise. */
  predicate NoneRaised<A, R>(items: seq<A>, f: A -> Outcome<R>) {
    forall i :: 0 <= i < |items| ==> !f(items[i]).Raised?
  }

  /** Some record makes the parser raise `e`. */
  predicate RaisedBy<A, R>(items: seq<A>, f: A -> Outcome<R>, e: string) {
    exists i :: 0 <= i < |items| && f(items[i]) == Raised(e)
  }

  /** The next loop of a script, run only when the steps before it succeeded,
      appending to what they kept. */
  function CollectAfter<A, R>(prev: Result<seq<R>>, items: seq<A>, f: A -> Outcome<R>): Result<seq<R>> {
    if prev.Failed? then prev else Collect(prev.value, items, f)
  }

  /** A further loop succeeds exactly when the steps before it did and none of
      its records raises, and then appends its kept records; a failure is the
      earlier one or the error of one of its records. */
  lemma CollectAfterSpec<A, R>(prev: Result<seq<R>>, items: seq<A>, f: A -> Outcome<R>)
    ensures var r := CollectAfter(prev, items, f);
      && (r.Ok? <==> prev.Ok? && NoneRaised(items, f))
      && (r.Ok? ==> r.value == prev.value + KeptValues(items, f))
      && (r.Failed? ==> (prev.Failed? && r.error == prev.error) || RaisedBy(items, f, r.error))
  {
    if prev.Ok? {
      CollectSpec(prev.value, items, f);
    }
  }

  /** Four loops in a row, each appending to what the ones before it kept: they
      succeed exactly when no record of any raises, and then keep the kept records
      of each, in turn; a failure is the error of a record of one of them. */
  lemma {:induction false} CollectFourSpec<A, B, C, D, R>(
    xs: seq<A>, f: A -> Outcome<R>, ys: seq<B>, g: B -> Outcome<R>,
    zs: seq<C>, h: C -> Outcome<R>, ws: seq<D>, k: D -> Outcome<R>)
    ensures var r := CollectAfter(CollectAfter(CollectAfter(Collect([], xs, f), ys, g), zs, h), ws, k);
      && (r.Ok? <==> NoneRaised(xs, f) && NoneRaised(ys, g) && NoneRaised(zs, h) && NoneRaised(ws, k))
      && (r.Ok? ==> r.value == KeptValues(xs, f) + KeptValues(ys, g) + KeptValues(zs, h) + KeptValues(ws, k))
      && (r.Failed? ==> RaisedBy(xs, f, r.error) || RaisedBy(ys, g, r.error)
                        || RaisedBy(zs, h, r.error) || RaisedBy(ws, k, r.error))
  {
    var first := Collect([], xs, f);
    var second := CollectAfter(first, ys, g);
    var third := CollectAfter(second, zs, h);
    CollectSpec([], xs, f);
    CollectAfterSpec(first, ys, g);
    CollectAfterSpec(second, zs, h);
    CollectAfterSpec(third, ws, k);
  }

  /** Two loops in a row, the second appending to what the first kept: it fails
      exactly when a record of either raises; otherwise it keeps the kept records
      of the first, then those of the second. */
  lemma CollectThenSpec<A, B, R>(xs: seq<A>, f: A -> Outcome<R>, ys: seq<B>, g: B -> Outcome<R>)
    ensures var first := Collect([], xs, f);
      var r := if first.Failed? then first else Collect(first.value, ys, g);
      && (r.Ok? <==> (forall i :: 0 <= i < |xs| ==> !f(xs[i]).Raised?) && (forall i :: 0 <= i < |ys| ==> !g(ys[i]).Raised?))
      && (r.Ok? ==> r.value == KeptValues(xs, f) + KeptValues(ys, g))
  {
    CollectOk([], xs, f);
    var first := Collect([], xs, f);
    if first.Ok? {
      CollectValue([], xs, f);
      assert first.value == KeptValues(xs, f);
      CollectOk(first.value, ys, g);
      if Collect(first.value, ys, g).Ok? {
        CollectValue(first.value, ys, g);
      }
    }
  }

  /** The rows of a CSV file after its header row, which `next(reader, None)` skips. */
  function Body<T>(rows: seq<T>): (r: seq<T>)
    ensures rows == [] ==> r == []
    ensures rows != [] ==> |r| == |rows| - 1 && forall i :: 0 <= i < |r| ==> r[i] == rows[i + 1]
  {
    if rows == [] then [] else rows[1..]
  }
}
