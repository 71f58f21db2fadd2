/**
 One Deployment as the operator sees it, and what one pass decides about it.

 A Deployment is its replica field and its annotations. Everything the operator
 remembers between passes is text in three of those annotations, so a workload is a
 plain value and a pass over it is a function.
 */
module Workloads {
  import opened Options
  import opened Decimal

  /** The three annotation keys the operator writes (finops.b100to.dev/saved-replicas,
      applied-replicas and owned-by), and everybody else's keys. */
  datatype Key = SavedReplicas | AppliedReplicas | OwnedBy | Other(name: string)

  type Annotations = map<Key, string>

  datatype Workload = Workload(replicas: Option<int32>, annotations: Annotations)

  datatype HpaPolicy = Skip | Warn | Scale | Unset

  /** The fields of an IdleWindow that decide what happens to a workload. */
  datatype Policy = Policy(
    name: string,
    minReplicas: Option<int32>,
    respectManualScale: Option<bool>,
    hpaPolicy: HpaPolicy)
  {
    function Min(): int32 { minReplicas.GetOr(0) }

    predicate Respects() { respectManualScale == Some(true) }

    predicate LeavesToHpa(hpaOwned: bool) { hpaOwned && hpaPolicy != Scale }
  }

  const BOOKKEEPING: set<Key> := {SavedReplicas, AppliedReplicas, OwnedBy}

  // ----- Reading a workload -----

  function AnnotationInt(annotations: Annotations, key: Key): Option<int32> {
    if key !in annotations then None
    else match Atoi(annotations[key])
         case None => None
         case Some(v) => Some(Narrow(v))
  }

  /** An unset replica field means one replica. */
  function Current(d: Workload): int32 { d.replicas.GetOr(1) }

  function Saved(d: Workload): Option<int32> { AnnotationInt(d.annotations, SavedReplicas) }

  function Applied(d: Workload): Option<int32> { AnnotationInt(d.annotations, AppliedReplicas) }

  predicate ManuallyChanged(d: Workload) {
    Applied(d).Some? && Current(d) != Applied(d).value
  }

  /** The size a sleep records: what an earlier sleep recorded, or what is running now. */
  function Original(d: Workload): int32 { Saved(d).GetOr(Current(d)) }

  /** The size this workload's owner is entitled to get back: the count a person chose, if
      they changed it since the operator last wrote it, and the recorded size otherwise. */
  function Owed(d: Workload): int32 {
    if ManuallyChanged(d) then Current(d) else Original(d)
  }

  predicate Untouched(d: Workload) { d.annotations.Keys !! BOOKKEEPING }

  // ----- What a pass writes -----

  function Noted(a: Annotations, original: int32, to: int32, owner: string): Annotations {
    a[SavedReplicas := Itoa(original)][AppliedReplicas := Itoa(to)][OwnedBy := owner]
  }

  function ScaledTo(p: Policy, d: Workload, to: int32, original: int32): Workload {
    Workload(Some(to), Noted(d.annotations, original, to, p.name))
  }

  function Forgotten(d: Workload): Workload { d.(annotations := d.annotations - BOOKKEEPING) }

  function RestoredTo(d: Workload, to: int32): Workload { Forgotten(d).(replicas := Some(to)) }

  /** Dropping the bookkeeping looks for the saved-replicas key only. */
  function ClearPatch(d: Workload): Option<Workload> {
    if SavedReplicas in d.annotations then Some(Forgotten(d)) else None
  }

  // ----- What a pass decides -----

  /** The patch to send if any, and what the pass adds to its tally. */
  datatype Decision = Decision(
    patch: Option<Workload>,
    affected: bool,
    skipped: bool,
    blocker: Option<string>,
    reclaimed: Option<int32>)

  function Decide(p: Policy, asleep: bool, hpaOwned: bool, d: Workload): Decision {
    if p.LeavesToHpa(hpaOwned) then
      Decision(None, false, true, if p.hpaPolicy == Warn then Some(" (HPA)") else None, None)
    else if ManuallyChanged(d) && p.Respects() then
      if asleep then Decision(None, false, true, Some(" (manual)"), None)
      else Decision(ClearPatch(d), false, true, None, None)
    else if asleep then
      var count := Narrow(Original(d) - p.Min());
      if Current(d) == p.Min() && Saved(d).Some? then
        Decision(None, true, false, None, Some(count))
      else
        Decision(Some(ScaledTo(p, d, p.Min(), Original(d))), true, false, None, Some(count))
    else if Saved(d).None? then
      Decision(None, false, false, None, None)
    else if Current(d) == Saved(d).value then
      Decision(ClearPatch(d), true, false, None, None)
    else
      Decision(Some(RestoredTo(d, Saved(d).value)), true, false, None, None)
  }

  /** The workload after a pass whose patch, if it sent one, landed. */
  function Step(p: Policy, asleep: bool, hpaOwned: bool, d: Workload): Workload {
    Decide(p, asleep, hpaOwned, d).patch.GetOr(d)
  }

  // ----- What the decision comes to, in the fields a person edits -----

  /** An autoscaled workload is never touched under Skip, Warn or the unset policy, and named only
      under Warn; under Scale the autoscaler makes no difference at all. */
  lemma AutoscalersUnderEachPolicy(p: Policy, asleep: bool, d: Workload)
    ensures p.hpaPolicy in {Skip, Warn, Unset} ==>
              Decide(p, asleep, true, d)
              == Decision(None, false, true, if p.hpaPolicy == Warn then Some(" (HPA)") else None, None)
    ensures p.hpaPolicy == Scale ==> Decide(p, asleep, true, d) == Decide(p, asleep, false, d)
  {
  }

  /** A count other than the applied one is respected if the flag is set, and only then: asleep the
      workload is named and left alone, awake it keeps the count and loses the three annotations. */
  lemma HandScalingIsRespected(p: Policy, d: Workload, applied: int32)
    requires AppliedReplicas in d.annotations && d.annotations[AppliedReplicas] == Itoa(applied)
    requires applied != match d.replicas { case Some(n) => n case None => 1 }
    ensures p.respectManualScale == Some(true) ==>
              && Decide(p, true, false, d) == Decision(None, false, true, Some(" (manual)"), None)
              && Decide(p, false, false, d)
                 == Decision(if SavedReplicas in d.annotations
                             then Some(Workload(d.replicas, d.annotations - {SavedReplicas, AppliedReplicas, OwnedBy}))
                             else None, false, true, None, None)
    ensures p.respectManualScale != Some(true) ==> !Decide(p, true, false, d).skipped
  {
    CountsReadBack(d.annotations, AppliedReplicas, applied);
  }

  /** The sleep of an untouched workload, text for text: the minimum, or zero if none is given, and
      notes of the old count, the new one and the window's name. An unset replica field is one. */
  lemma FallingAsleep(p: Policy, d: Workload)
    requires SavedReplicas !in d.annotations && AppliedReplicas !in d.annotations && OwnedBy !in d.annotations
    ensures var size := match d.replicas { case Some(n) => n case None => 1 };
            var min := match p.minReplicas { case Some(n) => n case None => 0 };
            && Step(p, true, false, d)
               == Workload(Some(min), d.annotations[SavedReplicas := Itoa(size)][AppliedReplicas := Itoa(min)]
                                                   [OwnedBy := p.name])
            && Decide(p, true, false, d).affected
            && (0 <= min <= size ==> Decide(p, true, false, d).reclaimed == Some(size - min))
  {
    NarrowIsIdentityIff(Original(d) - p.Min());
  }

  /** The wake, under whatever settings, puts the count back and takes the three texts away; a
      workload that never slept is left alone. */
  lemma ANight(evening: Policy, morning: Policy, d: Workload)
    requires SavedReplicas !in d.annotations && AppliedReplicas !in d.annotations && OwnedBy !in d.annotations
    ensures var size := match d.replicas { case Some(n) => n case None => 1 };
            && Step(morning, false, false, Step(evening, true, false, d)) == Workload(Some(size), d.annotations)
            && Decide(morning, false, false, d).patch == None
  {
    var e := Step(evening, true, false, d);
    ScaledToReads(evening, d, evening.Min(), Original(d));
    assert e == ScaledTo(evening, d, evening.Min(), Original(d));
    assert e.annotations - BOOKKEEPING == d.annotations;
  }

  /** Nothing counts as reclaimed by a pass that is awake or that stands down. */
  lemma OnlySleepReclaims(p: Policy, asleep: bool, hpaOwned: bool, d: Workload)
    ensures Decide(p, asleep, hpaOwned, d).reclaimed.Some? <==> asleep && !Decide(p, asleep, hpaOwned, d).skipped
  {
  }

  /** An annotation that is missing or no number reads as absent; any other as the low 32 bits of the
      number it is. */
  lemma AnnotationsReadAsNumbers(a: Annotations, key: Key)
    ensures AnnotationInt(a, key).Some? <==> key in a && Atoi(a[key]).Some?
    ensures AnnotationInt(a, key).Some? ==>
              (AnnotationInt(a, key).value - Atoi(a[key]).value) % 0x1_0000_0000 == 0
  {
    if key in a && Atoi(a[key]).Some? {
      NarrowKeepsTheLowBits(Atoi(a[key]).value);
    }
  }

  // ----- What a pass keeps -----

  /** A count written into an annotation is the count read back, whatever else is there. */
  lemma CountsReadBack(a: Annotations, key: Key, n: int32)
    requires key in a && a[key] == Itoa(n)
    ensures AnnotationInt(a, key) == Some(n)
  {
    AtoiItoa(n);
  }

  /** What the three reading functions see right after a sleep was written. */
  lemma ScaledToReads(p: Policy, d: Workload, to: int32, original: int32)
    ensures var e := ScaledTo(p, d, to, original);
            && Current(e) == to && Saved(e) == Some(original) && Applied(e) == Some(to)
            && !ManuallyChanged(e) && Owed(e) == original && e.annotations.Keys >= BOOKKEEPING
  {
    var e := ScaledTo(p, d, to, original);
    CountsReadBack(e.annotations, SavedReplicas, original);
    CountsReadBack(e.annotations, AppliedReplicas, to);
  }

  lemma ForgottenReads(d: Workload)
    ensures var e := Forgotten(d);
            Untouched(e) && Saved(e) == None && Applied(e) == None && Owed(e) == Current(d)
  {
  }

  /** The only way a pass loses the owed size: it overrides a hand-scaled workload although a
      different size is on record and the workload is not already where the pass wants it. */
  predicate Overrides(p: Policy, asleep: bool, hpaOwned: bool, d: Workload) {
    && !(hpaOwned && p.hpaPolicy != Scale)
    && p.respectManualScale != Some(true)
    && ManuallyChanged(d)
    && Saved(d).Some? && Saved(d).value != Current(d)
    && !(asleep && Current(d) == p.Min())
  }

  /** From any annotation contents, however corrupt, a pass keeps the owed size exactly
      when it does not override somebody. */
  lemma StepKeepsOwedIff(p: Policy, asleep: bool, hpaOwned: bool, d: Workload)
    ensures Owed(Step(p, asleep, hpaOwned, d)) == Owed(d) <==> !Overrides(p, asleep, hpaOwned, d)
  {
    ScaledToReads(p, d, p.Min(), Original(d));
    ForgottenReads(d);
  }

  /** What a window that overrides people conserves instead: the recorded size. A window that
      respects them gives it up exactly when it hands a hand-scaled workload back. */
  lemma StepKeepsOriginalIff(p: Policy, asleep: bool, hpaOwned: bool, d: Workload)
    ensures Original(Step(p, asleep, hpaOwned, d)) == Original(d)
            <==> !(&& !(hpaOwned && p.hpaPolicy != Scale) && p.respectManualScale == Some(true)
                   && ManuallyChanged(d) && !asleep && Original(d) != Current(d))
  {
    ScaledToReads(p, d, p.Min(), Original(d));
    ForgottenReads(d);
  }

  /** A workload nobody has changed by hand still looks that way after any pass. */
  lemma StepAddsNoManualChange(p: Policy, asleep: bool, hpaOwned: bool, d: Workload)
    requires !ManuallyChanged(d)
    ensures !ManuallyChanged(Step(p, asleep, hpaOwned, d))
  {
    ScaledToReads(p, d, p.Min(), Original(d));
    ForgottenReads(d);
  }

  /** A pass touches no annotation but its own three. */
  lemma StepKeepsForeignAnnotations(p: Policy, asleep: bool, hpaOwned: bool, d: Workload, key: Key)
    requires key.Other?
    ensures var e := Step(p, asleep, hpaOwned, d);
            && (key in e.annotations <==> key in d.annotations)
            && (key in d.annotations ==> e.annotations[key] == d.annotations[key])
  {
  }

  /** A landed pass leaves nothing for the same pass to do again. */
  lemma StepSettles(p: Policy, asleep: bool, hpaOwned: bool, d: Workload)
    ensures Decide(p, asleep, hpaOwned, Step(p, asleep, hpaOwned, d)).patch == None
  {
    ScaledToReads(p, d, p.Min(), Original(d));
    ForgottenReads(d);
  }

  /** A patch is sent exactly when it changes the workload. */
  lemma PatchIffChange(p: Policy, asleep: bool, hpaOwned: bool, d: Workload)
    ensures Decide(p, asleep, hpaOwned, d).patch.Some? <==> Step(p, asleep, hpaOwned, d) != d
  {
    ScaledToReads(p, d, p.Min(), Original(d));
    ForgottenReads(d);
  }

  /** What a pass reports is not disturbed by whether its patch landed: asleep, the repeated
      pass counts the same workload the same way and reclaims the same number of pods. */
  lemma AsleepReportIsStable(p: Policy, hpaOwned: bool, d: Workload)
    ensures Decide(p, true, hpaOwned, Step(p, true, hpaOwned, d)) == Decide(p, true, hpaOwned, d).(patch := None)
  {
    ScaledToReads(p, d, p.Min(), Original(d));
  }

  /** What is owed differs from the original size only while a person's change stands. */
  lemma OwedIsNotOriginalIff(d: Workload)
    ensures Owed(d) != Original(d) <==> ManuallyChanged(d) && Saved(d).Some? && Saved(d).value != Current(d)
  {
  }

  /** The pods reported for a workload are its original size less what keeps running; the 32-bit
      subtraction is exact unless a negative recorded size or minimum wraps it. The original size is
      what the workload is owed, unless a window overrides the count a person chose. */
  lemma ReclaimedIsOriginalLessMin(p: Policy, hpaOwned: bool, d: Workload)
    requires !p.LeavesToHpa(hpaOwned) && !(ManuallyChanged(d) && p.Respects())
    ensures Decide(p, true, hpaOwned, d).reclaimed == Some(Narrow(Original(d) - p.Min()))
    ensures Narrow(Original(d) - p.Min()) == Original(d) - p.Min()
            <==> -0x8000_0000 <= Original(d) - p.Min() < 0x8000_0000
    ensures Original(d) != Owed(d)
            <==> !p.Respects() && ManuallyChanged(d) && Saved(d).Some? && Saved(d).value != Current(d)
  {
    NarrowIsIdentityIff(Original(d) - p.Min());
    OwedIsNotOriginalIff(d);
  }

  /** Where a workload of intended size n stands after a landed pass. */
  ghost predicate InPlace(p: Policy, asleep: bool, n: int32, d: Workload) {
    if asleep then
      Current(d) == p.Min() && Saved(d) == Some(n) && Applied(d) == Some(p.Min())
    else
      Current(d) == n && Untouched(d)
  }

  /** A workload of intended size n whose bookkeeping, if any, is the operator's own. */
  ghost predicate Tracked(n: int32, d: Workload) {
    || (Untouched(d) && Current(d) == n)
    || (Saved(d) == Some(n) && Applied(d) == Some(Current(d)))
  }

  /** One landed pass, from wherever the workload was, puts it where the verdict says. */
  lemma StepPutsInPlace(p: Policy, asleep: bool, hpaOwned: bool, n: int32, d: Workload)
    requires Tracked(n, d) && !p.LeavesToHpa(hpaOwned)
    ensures InPlace(p, asleep, n, Step(p, asleep, hpaOwned, d))
    ensures Tracked(n, Step(p, asleep, hpaOwned, d))
  {
    ScaledToReads(p, d, p.Min(), Original(d));
    ForgottenReads(d);
  }
}
