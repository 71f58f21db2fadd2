/**
 The Unblocked condition: what it says for which blockers.
 */
module Conditions {
  /** Holds is the condition's status; only False ones carry a list of blockers. */
  datatype Condition = Condition(holds: bool, message: string)

  function Join(parts: seq<string>, separator: string): string {
    if parts == [] then ""
    else if |parts| == 1 then parts[0]
    else parts[0] + separator + Join(parts[1..], separator)
  }

  const NOTHING_BLOCKING: string := "no workload or PodDisruptionBudget prevents reclaiming this namespace"
  const BLOCKED: string := "not fully reclaimable: "

  function UnblockedCondition(blockers: seq<string>): Condition {
    if blockers == [] then Condition(true, NOTHING_BLOCKING)
    else Condition(false, BLOCKED + Join(blockers, ", "))
  }

  // ----- What counts as a change -----

  /** A workload or budget name with its suffix has no comma. */
  predicate BlockerName(s: string) { ',' !in s }

  lemma {:induction false} CommaAfterFirst(parts: seq<string>)
    requires parts != [] && forall p <- parts :: ',' !in p
    ensures var s := Join(parts, ", ");
            && |parts[0]| <= |s| && s[..|parts[0]|] == parts[0]
            && (|parts| == 1 <==> ',' !in s)
            && (|parts| > 1 ==> && |s| >= |parts[0]| + 2 && s[|parts[0]|] == ','
                                && s[|parts[0]| + 2..] == Join(parts[1..], ", "))
  {
    if |parts| > 1 {
      var s := Join(parts, ", ");
      assert s == parts[0] + ", " + Join(parts[1..], ", ");
      assert s[|parts[0]|] == ',';
    }
  }

  lemma {:induction false} JoinIsInjective(a: seq<string>, b: seq<string>)
    requires a != [] && b != [] && forall p <- a + b :: ',' !in p
    requires Join(a, ", ") == Join(b, ", ")
    ensures a == b
  {
    assert forall p <- a :: p in a + b;
    assert forall p <- b :: p in a + b;
    CommaAfterFirst(a);
    CommaAfterFirst(b);
    if |a| > 1 {
      FirstCommaIsUnique(Join(a, ", "), a[0], b[0]);
      assert forall p <- a[1..] + b[1..] :: p in a + b;
      JoinIsInjective(a[1..], b[1..]);
      assert a == [a[0]] + a[1..];
      assert b == [b[0]] + b[1..];
    }
  }

  lemma FirstCommaIsUnique(s: string, x: string, y: string)
    requires |x| < |s| && |y| < |s| && s[..|x|] == x && s[..|y|] == y
    requires s[|x|] == ',' && s[|y|] == ',' && ',' !in x && ',' !in y
    ensures x == y
  {
    assert forall i :: 0 <= i < |x| ==> s[i] == x[i] != ',';
    assert forall i :: 0 <= i < |y| ==> s[i] == y[i] != ',';
  }

  /** The message tells blocker lists apart completely: the condition stays the same exactly when
      the same blockers come in the same order. The same set in another order is a change. */
  lemma ConditionChangesIffBlockersDo(a: seq<string>, b: seq<string>)
    requires forall p <- a + b :: BlockerName(p)
    ensures UnblockedCondition(a) == UnblockedCondition(b) <==> a == b
  {
    if a != [] && b != [] && UnblockedCondition(a) == UnblockedCondition(b) {
      var ja, jb := Join(a, ", "), Join(b, ", ");
      assert (BLOCKED + ja)[|BLOCKED|..] == ja;
      assert (BLOCKED + jb)[|BLOCKED|..] == jb;
      JoinIsInjective(a, b);
    }
  }

  /** The condition holds exactly when nothing blocks, and otherwise lists what does. */
  lemma ConditionSaysWhatBlocks(blockers: seq<string>)
    ensures var c := UnblockedCondition(blockers);
            && (c.holds <==> blockers == [])
            && (c.holds ==> c.message == "no workload or PodDisruptionBudget prevents reclaiming this namespace")
            && (|blockers| == 1 ==> c.message == "not fully reclaimable: " + blockers[0])
            && (|blockers| == 2 ==> c.message == "not fully reclaimable: " + (blockers[0] + ", " + blockers[1]))
  {
    if |blockers| == 2 {
      assert Join(blockers[1..], ", ") == blockers[1];
    }
  }
}
