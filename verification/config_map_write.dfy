// What one pass of the write closure leaves in the ConfigMap, field by field.
module ConfigMapWrite {
  import opened Text
  import opened PolicyDocs
  import opened GenerationRuns

  // ---------------------------------------------------------------- owners

  /** The first owner reference to the router. */
  predicate FirstNamed(owners: seq<OwnerRef>, ref: OwnerRef, i: nat) {
    && i < |owners| && owners[i].kind == ref.kind && owners[i].name == ref.name
    && forall j :: 0 <= j < i ==> !(owners[j].kind == ref.kind && owners[j].name == ref.name)
  }

  /** The first owner marked as controller is another object. */
  predicate ControlledByOther(owners: seq<OwnerRef>, ref: OwnerRef) {
    exists i :: 0 <= i < |owners| && ControlsAt(owners, i) && !(owners[i].kind == ref.kind && owners[i].name == ref.name)
  }

  predicate ControlsAt(owners: seq<OwnerRef>, i: nat)
    requires i < |owners|
  {
    owners[i].controller && forall j :: 0 <= j < i ==> !owners[j].controller
  }

  /** The reference is there, in the place it had or at the end; the others stay in order. */
  ghost predicate KeepsOwners(before: seq<OwnerRef>, after: seq<OwnerRef>, ref: OwnerRef) {
    && (forall i: nat :: FirstNamed(before, ref, i) ==>
          && |after| == |before|
          && after[i].uid == ref.uid && after[i].kind == ref.kind && after[i].name == ref.name
          && forall k :: 0 <= k < |before| && k != i ==> after[k] == before[k])
    && ((forall i: nat :: !FirstNamed(before, ref, i)) ==> after == before + [ref])
  }

  ghost predicate MarkedController(owners: seq<OwnerRef>, ref: OwnerRef) {
    exists i: nat :: FirstNamed(owners, ref, i) && owners[i].controller
  }

  lemma {:induction false} UpsertMeaning(owners: seq<OwnerRef>, ref: OwnerRef)
    ensures KeepsOwners(owners, Upsert(owners, ref), ref)
    ensures forall i: nat :: FirstNamed(owners, ref, i) ==> |Upsert(owners, ref)| == |owners| && Upsert(owners, ref)[i] == ref
    ensures (forall i: nat :: !FirstNamed(owners, ref, i)) ==> Upsert(owners, ref) == owners + [ref]
  {
    if owners != [] && !SameObject(owners[0], ref) {
      var rest := owners[1..];
      UpsertMeaning(rest, ref);
      forall i: nat ensures FirstNamed(owners, ref, i) <==> i > 0 && FirstNamed(rest, ref, i - 1) {
        NamedLater(owners, ref, i);
      }
      hide FirstNamed;
      if forall i: nat :: !FirstNamed(owners, ref, i) {
        forall i: nat ensures !FirstNamed(rest, ref, i) {
          assert FirstNamed(owners, ref, i + 1) <==> FirstNamed(rest, ref, i);
        }
        assert owners == [owners[0]] + rest;
      }
      forall i: nat | FirstNamed(owners, ref, i)
        ensures |Upsert(owners, ref)| == |owners| && Upsert(owners, ref)[i] == ref
        ensures forall k :: 0 <= k < |owners| && k != i ==> Upsert(owners, ref)[k] == owners[k]
      {
        assert FirstNamed(rest, ref, i - 1);
        assert forall k :: 0 < k < |owners| ==> owners[k] == rest[k - 1] && Upsert(owners, ref)[k] == Upsert(rest, ref)[k - 1];
      }
    } else if owners != [] {
      assert FirstNamed(owners, ref, 0);
    }
  }

  lemma NamedLater(owners: seq<OwnerRef>, ref: OwnerRef, i: nat)
    requires owners != [] && !SameObject(owners[0], ref)
    ensures FirstNamed(owners, ref, i) <==> i > 0 && FirstNamed(owners[1..], ref, i - 1)
  {
    if i > 0 && FirstNamed(owners[1..], ref, i - 1) {
      assert forall j :: 0 < j < i ==> owners[j] == owners[1..][j - 1];
    }
  }

  lemma {:induction false} ControllerMeaning(owners: seq<OwnerRef>)
    ensures match FirstController(owners)
            case None => forall i :: 0 <= i < |owners| ==> !owners[i].controller
            case Some(c) => exists i :: 0 <= i < |owners| && ControlsAt(owners, i) && owners[i] == c
  {
    if owners != [] && owners[0].controller {
      assert ControlsAt(owners, 0);
    } else if owners != [] {
      ControllerMeaning(owners[1..]);
      if FirstController(owners[1..]).Some? {
        var i :| 0 <= i < |owners[1..]| && ControlsAt(owners[1..], i) && owners[1..][i] == FirstController(owners[1..]).value;
        assert forall j :: 0 < j <= i ==> owners[j] == owners[1..][j - 1];
        assert ControlsAt(owners, i + 1);
      } else {
        assert forall j :: 0 < j < |owners| ==> owners[j] == owners[1..][j - 1];
      }
    }
  }

  /** The reference is refused exactly when another object controls. */
  lemma RefusedMeaning(owners: seq<OwnerRef>, ref: OwnerRef)
    ensures WithController(owners, ref) == None <==> ControlledByOther(owners, ref)
    ensures WithController(owners, ref).Some? ==> WithController(owners, ref) == Some(Upsert(owners, ref))
  {
    ControllerMeaning(owners);
    if FirstController(owners).Some? {
      var i :| 0 <= i < |owners| && ControlsAt(owners, i) && owners[i] == FirstController(owners).value;
      forall j | 0 <= j < |owners| && ControlsAt(owners, j) ensures j == i {
      }
    }
    hide Upsert;
  }

  // ---------------------------------------------------------------- the object

  /** The wanted labels, and every other one as it was. */
  predicate LabelsLeft(before: Labels, mine: Labels, after: Labels) {
    && (forall k :: k in mine ==> k in after && after[k] == mine[k])
    && (forall k :: k in before && k !in mine ==> k in after && after[k] == before[k])
    && (forall k :: k in after ==> k in mine || k in before)
  }

  /** Every annotation as it was, and an agent status, "Pending" when there was none. */
  predicate AnnotationsLeft(before: Labels, after: Labels) {
    && (forall k :: k in before ==> k in after && after[k] == before[k])
    && (forall k :: k in after ==> k in before || k == "kmc.ianunruh.com/agent-status")
    && "kmc.ianunruh.com/agent-status" in after
    && ("kmc.ianunruh.com/agent-status" !in before ==> after["kmc.ianunruh.com/agent-status"] == "Pending")
  }

  /** What a pass leaves, given what it has read. */
  ghost predicate Left(r: Router, text: PolicyText, seen: Option<ConfigMap>, after: ConfigMap) {
    && after.policy == text && after.script == r.script
    && LabelsLeft(if seen.Some? then seen.value.labels else map[], r.labels, after.labels)
    && AnnotationsLeft(if seen.Some? then seen.value.annotations else map[], after.annotations)
    && KeepsOwners(if seen.Some? then seen.value.owners else [], after.owners, r.ref)
  }

  /** All is as wanted except that the reference to the router is not marked as controller. */
  ghost predicate OnlyUnmarked(r: Router, text: PolicyText, seen: ConfigMap) {
    && seen.policy == text && seen.script == r.script
    && (forall k :: k in r.labels ==> k in seen.labels && seen.labels[k] == r.labels[k])
    && "kmc.ianunruh.com/agent-status" in seen.annotations
    && exists i: nat :: FirstNamed(seen.owners, r.ref, i) && seen.owners[i].uid == r.ref.uid && !seen.owners[i].controller
  }

  lemma WantedIsLeft(r: Router, text: PolicyText, cm: ConfigMap)
    ensures Left(r, text, Some(cm), Wanted(r, text, cm, Upsert(cm.owners, r.ref)))
  {
    UpsertMeaning(cm.owners, r.ref);
    hide KeepsOwners, Upsert;
  }

  lemma NewIsLeft(r: Router, text: PolicyText)
    requires r.ref.controller
    ensures var cm := ConfigMap(r.labels, map[AGENT_STATUS := "Pending"], text, r.script, [r.ref]);
            Left(r, text, None, cm) && MarkedController(cm.owners, r.ref)
  {
    assert FirstNamed([r.ref], r.ref, 0);
    assert [] + [r.ref] == [r.ref];
  }

  /** A pass is skipped exactly when the object is as wanted, the controller mark aside. */
  lemma SkippedMeaning(r: Router, text: PolicyText, cm: ConfigMap)
    requires !ControlledByOther(cm.owners, r.ref)
    ensures Decide(r, text, Some(cm)) == (if Unchanged(r, text, cm) then Skip else Write(Wanted(r, text, cm, Upsert(cm.owners, r.ref))))
  {
    RefusedMeaning(cm.owners, r.ref);
    var after := Wanted(r, text, cm, Upsert(cm.owners, r.ref));
    MapsEqualAfterMerge(cm.labels, after.labels);
    MapsEqualAfterMerge(cm.annotations, after.annotations);
    hide Upsert, MapsEqualSpec, OwnerRefsEqual, WithController, ControlledByOther;
  }

  predicate Unchanged(r: Router, text: PolicyText, cm: ConfigMap) {
    var after := Wanted(r, text, cm, Upsert(cm.owners, r.ref));
    && cm.policy == text && cm.script == r.script && cm.labels == after.labels && cm.annotations == after.annotations
    && OwnerRefsEqual(cm.owners, after.owners)
  }

  /** Then what is there is what a pass leaves, and marked unless only the mark is missing. */
  lemma UnchangedIsLeft(r: Router, text: PolicyText, cm: ConfigMap)
    requires Unchanged(r, text, cm)
    ensures Left(r, text, Some(cm), cm)
    ensures MarkedController(cm.owners, r.ref) <==> !OnlyUnmarked(r, text, cm)
  {
    WantedIsLeft(r, text, cm);
    UpsertMeaning(cm.owners, r.ref);
    var after := Upsert(cm.owners, r.ref);
    hide Upsert, FirstNamed;
    if forall i: nat :: !FirstNamed(cm.owners, r.ref, i) {
      assert false;
    }
    var i: nat :| FirstNamed(cm.owners, r.ref, i);
    OneFirst(cm.owners, r.ref, i);
    InBounds(cm.owners, r.ref, i);
    assert after[i] == r.ref;
    assert cm.owners[i].uid == r.ref.uid;
  }

  lemma InBounds(owners: seq<OwnerRef>, ref: OwnerRef, i: nat)
    requires FirstNamed(owners, ref, i)
    ensures i < |owners| && owners[i].kind == ref.kind && owners[i].name == ref.name
  {
  }

  lemma OneFirst(owners: seq<OwnerRef>, ref: OwnerRef, i: nat)
    requires FirstNamed(owners, ref, i)
    ensures forall j: nat :: FirstNamed(owners, ref, j) ==> j == i
  {
  }

  /** What is written marks the router as controller. */
  lemma WrittenIsMarked(r: Router, text: PolicyText, cm: ConfigMap)
    requires r.ref.controller
    ensures MarkedController(Upsert(cm.owners, r.ref), r.ref)
  {
    UpsertMeaning(cm.owners, r.ref);
    var after := Upsert(cm.owners, r.ref);
    hide Upsert;
    if i: nat :| FirstNamed(cm.owners, r.ref, i) {
      assert FirstNamed(after, r.ref, i);
    } else {
      forall j | 0 <= j < |cm.owners| ensures !SameObject(cm.owners[j], r.ref) {
        NoneNamed(cm.owners, r.ref, j);
      }
      assert FirstNamed(after, r.ref, |cm.owners|);
    }
  }

  /** With no first reference there is none. */
  lemma {:induction false} NoneNamed(owners: seq<OwnerRef>, ref: OwnerRef, j: nat)
    requires j < |owners| && forall i: nat :: !FirstNamed(owners, ref, i)
    ensures !SameObject(owners[j], ref)
    decreases j
  {
    forall k | 0 <= k < j ensures !SameObject(owners[k], ref) {
      NoneNamed(owners, ref, k);
    }
    assert !FirstNamed(owners, ref, j);
  }

  // ---------------------------------------------------------------- one pass

  /** The world after the closure has read the current object and decided. */
  function Passed(r: Router, w: World): World
    requires w.Valid()
  {
    var w1 := Step(r, w, Fetch(|w.versions| - 1));
    StepValid(r, w, Fetch(|w.versions| - 1));
    Step(r, w1, Commit(false))
  }

  lemma PassedBy(r: Router, w: World, text: PolicyText)
    requires w.Valid() && w.phase == Rendered(text)
    ensures Passed(r, w).versions == match Decide(r, text, Current(w))
                                     case Write(cm) => w.versions + [Some(cm)]
                                     case _ => w.versions
  {
    hide Decide;
    NoneIsWritten(r, text, Current(w));
  }

  /**
   * An uncontended pass leaves the object alone exactly when another object controls
   * it. Otherwise it leaves the policy and the script, the wanted labels over the
   * others that were there, the annotations that were there with an agent status, and
   * the router among the owners in its place. It is marked as controller there exactly
   * when the mark was not all that was missing: the comparison of owners ignores it.
   */
  lemma PassLeaves(r: Router, w: World, text: PolicyText)
    requires w.Valid() && r.ref.controller && w.phase == Rendered(text)
    ensures var seen, after := Current(w), Passed(r, w).versions;
            if seen.Some? && ControlledByOther(seen.value.owners, r.ref) then after == w.versions
            else
              && after != [] && after[|after| - 1].Some?
              && Left(r, text, seen, after[|after| - 1].value)
              && (MarkedController(after[|after| - 1].value.owners, r.ref)
                  <==> !(seen.Some? && OnlyUnmarked(r, text, seen.value)))
              && (after == w.versions || after == w.versions + [after[|after| - 1]])
  {
    PassedBy(r, w, text);
    hide Passed;
    match Current(w)
    case None => NewIsLeft(r, text);
    case Some(cm) =>
      RefusedMeaning(cm.owners, r.ref);
      if !ControlledByOther(cm.owners, r.ref) {
        SkippedMeaning(r, text, cm);
        WantedIsLeft(r, text, cm);
        WrittenIsMarked(r, text, cm);
        hide Decide, ControlledByOther, Left, Upsert;
        if Unchanged(r, text, cm) {
          UnchangedIsLeft(r, text, cm);
        } else {
          UnmarkedIsUnchanged(r, text, cm);
        }
      }
  }

  /** When only the mark is missing, nothing is written. */
  lemma UnmarkedIsUnchanged(r: Router, text: PolicyText, cm: ConfigMap)
    ensures OnlyUnmarked(r, text, cm) ==> Unchanged(r, text, cm)
  {
    if OnlyUnmarked(r, text, cm) {
      UpsertMeaning(cm.owners, r.ref);
      var after := Upsert(cm.owners, r.ref);
      hide Upsert;
      var i: nat :| FirstNamed(cm.owners, r.ref, i) && cm.owners[i].uid == r.ref.uid && !cm.owners[i].controller;
      assert after[i] == r.ref && forall k :: 0 <= k < |after| && k != i ==> after[k] == cm.owners[k];
      assert OwnerRefsEqual(cm.owners, after);
      assert cm.labels + r.labels == cm.labels;
    }
  }

  /** For instance an object as wanted whose owner reference lost its mark: the pass writes nothing. */
  lemma MarkIsNotRestored(r: Router, text: PolicyText) returns (w: World)
    requires r.ref.controller
    ensures w.Valid() && w.phase == Rendered(text)
    ensures w.versions == [Some(ConfigMap(r.labels, map[AGENT_STATUS := "Ready"], text, r.script, [r.ref.(controller := false)]))]
    ensures Passed(r, w).versions == w.versions
  {
    var cm := ConfigMap(r.labels, map[AGENT_STATUS := "Ready"], text, r.script, [r.ref.(controller := false)]);
    w := World([Some(cm)], [], Rendered(text), 0);
    assert FirstNamed(cm.owners, r.ref, 0);
    assert OnlyUnmarked(r, text, cm);
    UnmarkedIsUnchanged(r, text, cm);
    SkippedMeaning(r, text, cm);
    PassedBy(r, w, text);
    hide Passed, Decide, Unchanged;
  }
}
