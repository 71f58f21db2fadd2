/**
 Events as a change log. A status value is rewritten every pass and an Event is emitted when it
 differs from the one stored; this is how both the phase and the Unblocked condition are announced.
 */
module ChangeLogs {
  import opened Options

  predicate Emits<T(==)>(stored: Option<T>, next: T) { stored != Some(next) }

  function NewsSince<T(==)>(known: Option<T>, next: T): seq<T> {
    if Emits(known, next) then [next] else []
  }

  /** One pass: the value it computes, and whether its status write lands. A dropped write leaves the
      stored value as it was. */
  datatype StatusPass<T> = StatusPass(value: T, landed: bool)

  function StoredAfter<T(==)>(stored: Option<T>, run: seq<StatusPass<T>>): Option<T> {
    if run == [] then stored
    else
      StoredNext(StoredAfter(stored, run[..|run| - 1]), run[|run| - 1])
  }

  function StoredNext<T(==)>(stored: Option<T>, pass: StatusPass<T>): Option<T> {
    if pass.landed then Some(pass.value) else stored
  }

  function Emitted<T(==)>(stored: Option<T>, run: seq<StatusPass<T>>): seq<T> {
    if run == [] then []
    else
      var front, last := run[..|run| - 1], run[|run| - 1];
      Emitted(stored, front) + NewsSince(StoredAfter(stored, front), last.value)
  }

  /** A sequence with consecutive repeats removed. */
  function ChangeLog<T(==)>(values: seq<T>): seq<T> {
    if |values| <= 1 then values
    else
      var n := |values| - 1;
      ChangeLog(values[..n]) + if values[n] != values[n - 1] then [values[n]] else []
  }

  function Values<T(==)>(run: seq<StatusPass<T>>): seq<T> {
    seq(|run|, i requires 0 <= i < |run| => run[i].value)
  }

  lemma {:induction false} ChangeLogNeverRepeats<T>(values: seq<T>)
    ensures var log := ChangeLog(values);
            && (values == [] <==> log == [])
            && (values != [] ==> log[|log| - 1] == values[|values| - 1])
            && forall i :: 0 <= i < |log| - 1 ==> log[i] != log[i + 1]
  {
    if |values| > 1 {
      ChangeLogNeverRepeats(values[..|values| - 1]);
    }
  }

  /** The value the pass before computed, stored or not; before the run, the stored one. */
  function Previous<T(==)>(stored: Option<T>, run: seq<StatusPass<T>>): Option<T> {
    if run == [] then stored else Some(run[|run| - 1].value)
  }

  function AsLog<T(==)>(stored: Option<T>): seq<T> { if stored.Some? then [stored.value] else [] }

  /** The values the reader of the Events could know of, in order. */
  function Known<T(==)>(stored: Option<T>, run: seq<StatusPass<T>>): seq<T> { AsLog(stored) + Values(run) }

  lemma KnownGrows<T>(stored: Option<T>, run: seq<StatusPass<T>>)
    requires run != []
    ensures Known(stored, run) == Known(stored, run[..|run| - 1]) + [run[|run| - 1].value]
  {
    assert Values(run) == Values(run[..|run| - 1]) + [run[|run| - 1].value];
  }

  lemma KnownEndsAtPrevious<T>(stored: Option<T>, run: seq<StatusPass<T>>)
    ensures var known := Known(stored, run);
            Previous(stored, run) == if known == [] then None else Some(known[|known| - 1])
  {
  }

  /** The value stored before the run, as an earlier Event told it, and the Events of the run. */
  function Heard<T(==)>(stored: Option<T>, run: seq<StatusPass<T>>): seq<T> {
    AsLog(stored) + Emitted(stored, run)
  }

  /** The changes of the value over the run, counted from the one stored before it if any. */
  function Changes<T(==)>(stored: Option<T>, run: seq<StatusPass<T>>): seq<T> {
    ChangeLog(Known(stored, run))
  }

  /** The stored value tells the pass the same as the previous one would: both equal the new value or
      neither does. */
  predicate Tells<T(==)>(stored: Option<T>, previous: Option<T>, next: T) {
    stored == Some(next) <==> previous == Some(next)
  }

  predicate TellsAt<T(==)>(stored: Option<T>, run: seq<StatusPass<T>>, i: nat)
    requires i < |run|
  {
    Tells(StoredAfter(stored, run[..i]), Previous(stored, run[..i]), run[i].value)
  }

  /** No pass repeats the previous value while another one is stored, and none goes back to the
      stored value from another one. */
  predicate AlwaysTells<T(==)>(stored: Option<T>, run: seq<StatusPass<T>>) {
    forall i :: 0 <= i < |run| ==> TellsAt(stored, run, i)
  }

  lemma {:induction false} ChangeLogGrows<T>(values: seq<T>, next: T)
    ensures ChangeLog(values + [next])
            == ChangeLog(values) + NewsSince(if values == [] then None else Some(values[|values| - 1]), next)
  {
    var grown := values + [next];
    assert grown[..|grown| - 1] == values;
    if values == [] {
      assert grown == [next];
    }
  }

  lemma {:induction false} ChangesGrow<T>(stored: Option<T>, run: seq<StatusPass<T>>)
    requires run != []
    ensures var front := run[..|run| - 1];
            Changes(stored, run)
            == Changes(stored, front) + NewsSince(Previous(stored, front), run[|run| - 1].value)
  {
    var front, next := run[..|run| - 1], run[|run| - 1].value;
    KnownGrows(stored, run);
    KnownEndsAtPrevious(stored, front);
    ChangeLogGrows(Known(stored, front), next);
  }

  lemma {:induction false} ChangesEndAtPrevious<T>(stored: Option<T>, run: seq<StatusPass<T>>)
    ensures var log := Changes(stored, run);
            Previous(stored, run) == if log == [] then None else Some(log[|log| - 1])
  {
    KnownEndsAtPrevious(stored, run);
    ChangeLogNeverRepeats(Known(stored, run));
  }

  /** The Events have left the log for good: one was repeated, another one stands in the place of
      a change, or a change is missing that equals what is stored and so cannot come next. */
  ghost predicate Astray<T>(events: seq<T>, log: seq<T>, stored: Option<T>) {
    || (exists i :: 0 <= i < |events| - 1 && events[i] == events[i + 1])
    || (exists i :: 0 <= i < |events| && i < |log| && events[i] != log[i])
    || (|events| < |log| && stored == Some(log[|events|]))
  }

  lemma {:induction false} AstrayStaysAstray<T>(events: seq<T>, log: seq<T>, stored: Option<T>,
                          pass: StatusPass<T>, more: seq<T>)
    requires Astray(events, log, stored)
    ensures Astray(events + NewsSince(stored, pass.value), log + more, StoredNext(stored, pass))
  {
    var events', log' := events + NewsSince(stored, pass.value), log + more;
    if i :| 0 <= i < |events| - 1 && events[i] == events[i + 1] {
      assert events'[i] == events'[i + 1];
    } else if i :| 0 <= i < |events| && i < |log| && events[i] != log[i] {
      assert events'[i] != log'[i];
    } else if Emits(stored, pass.value) {
      assert events'[|events|] != log'[|events|];
    }
  }

  /** From a log the Events still follow, one pass that is not told leads astray. */
  lemma {:induction false} FollowsUnlessMisled<T>(log: seq<T>, stored: Option<T>, pass: StatusPass<T>)
    ensures var previous := if log == [] then None else Some(log[|log| - 1]);
            var events', log' := log + NewsSince(stored, pass.value), log + NewsSince(previous, pass.value);
            if Tells(stored, previous, pass.value) then events' == log'
            else Astray(events', log', StoredNext(stored, pass))
  {
    var events' := log + NewsSince(stored, pass.value);
    if log != [] && log[|log| - 1] == pass.value && Emits(stored, pass.value) {
      assert events'[|log| - 1] == events'[|log|];
    }
  }

  lemma {:induction false} AlwaysTellsGrows<T>(stored: Option<T>, run: seq<StatusPass<T>>)
    requires run != []
    ensures var front := run[..|run| - 1];
            AlwaysTells(stored, run) <==>
            && AlwaysTells(stored, front)
            && Tells(StoredAfter(stored, front), Previous(stored, front), run[|run| - 1].value)
  {
    var front := run[..|run| - 1];
    forall i | 0 <= i < |front| ensures TellsAt(stored, front, i) <==> TellsAt(stored, run, i) {
      assert front[..i] == run[..i];
    }
    assert AlwaysTells(stored, run) ==> TellsAt(stored, run, |front|);
  }

  lemma {:induction false} HeardGrows<T>(stored: Option<T>, run: seq<StatusPass<T>>)
    requires run != []
    ensures var front := run[..|run| - 1];
            Heard(stored, run) == Heard(stored, front) + NewsSince(StoredAfter(stored, front), run[|run| - 1].value)
  {
  }

  lemma {:induction false} EventsFollowOrGoAstray<T>(stored: Option<T>, run: seq<StatusPass<T>>)
    ensures if AlwaysTells(stored, run) then Heard(stored, run) == Changes(stored, run)
            else Astray(Heard(stored, run), Changes(stored, run), StoredAfter(stored, run))
  {
    if run == [] {
      assert AsLog(stored) + Values(run) == AsLog(stored) + Emitted(stored, run) == AsLog(stored);
    } else {
      var front, last := run[..|run| - 1], run[|run| - 1];
      EventsFollowOrGoAstray(stored, front);
      HeardGrows(stored, run);
      ChangesGrow(stored, run);
      AlwaysTellsGrows(stored, run);
      var heard, log, was := Heard(stored, front), Changes(stored, front), StoredAfter(stored, front);
      if AlwaysTells(stored, front) {
        ChangesEndAtPrevious(stored, front);
        FollowsUnlessMisled(log, was, last);
      } else {
        AstrayStaysAstray(heard, log, was, last, NewsSince(Previous(stored, front), last.value));
      }
    }
  }

  /** The Events are exactly the changes of the value if and only if at every pass the stored value
      tells the same as the previous one. */
  lemma EventsAreTheChangesIff<T>(stored: Option<T>, run: seq<StatusPass<T>>)
    ensures Heard(stored, run) == Changes(stored, run) <==> AlwaysTells(stored, run)
  {
    EventsFollowOrGoAstray(stored, run);
    ChangeLogNeverRepeats(Known(stored, run));
  }

  lemma {:induction false} LandedWritesTell<T>(stored: Option<T>, run: seq<StatusPass<T>>)
    requires forall i :: 0 <= i < |run| - 1 ==> run[i].landed
    ensures AlwaysTells(stored, run)
  {
    forall i | 0 <= i < |run|
      ensures TellsAt(stored, run, i)
    {
      if i > 0 {
        assert run[..i][i - 1] == run[i - 1];
      }
    }
  }

  /** When every status write but possibly the last lands, the Events are exactly the changes of
      the value, starting from the one stored before the run if there was one. */
  lemma EventsAreTheChangeLog<T>(stored: Option<T>, run: seq<StatusPass<T>>)
    requires forall i :: 0 <= i < |run| - 1 ==> run[i].landed
    ensures match stored
            case None => Emitted(None, run) == ChangeLog(Values(run))
            case Some(c) => [c] + Emitted(stored, run) == ChangeLog([c] + Values(run))
  {
    LandedWritesTell(stored, run);
    EventsAreTheChangesIff(stored, run);
    assert [] + Emitted(stored, run) == Emitted(stored, run);
    assert [] + Values(run) == Values(run);
  }

  /** A dropped status write can break that: the value goes back to what is still stored without an
      Event, and the last Event names a state that has passed. */
  lemma DroppedWriteLosesAChange<T>(a: T, b: T)
    requires a != b
    ensures var run := [StatusPass(a, true), StatusPass(b, false), StatusPass(a, true)];
            Emitted(None, run) == [a, b] && ChangeLog(Values(run)) == [a, b, a]
  {
    var run := [StatusPass(a, true), StatusPass(b, false), StatusPass(a, true)];
    assert run[..2] == [StatusPass(a, true), StatusPass(b, false)];
    assert run[..2][..1] == [StatusPass(a, true)];
    assert Emitted(None, run[..2][..1]) == [a];
    assert Emitted(None, run[..2]) == [a, b];
    assert Values(run) == [a, b, a];
    assert [a, b, a][..2] == [a, b];
    assert [a, b][..1] == [a];
    assert ChangeLog([a, b]) == [a, b];
  }

  /** Or the value stays and the Event is repeated. */
  lemma DroppedWriteRepeatsAnEvent<T>(a: T)
    ensures var run := [StatusPass(a, false), StatusPass(a, true)];
            Emitted(None, run) == [a, a] && ChangeLog(Values(run)) == [a]
  {
    var run := [StatusPass(a, false), StatusPass(a, true)];
    assert run[..1] == [StatusPass(a, false)];
    assert run[..1][..0] == [];
    assert Emitted(None, run[..1]) == [a];
    assert Values(run) == [a, a];
    assert [a, a][..1] == [a];
  }
}
