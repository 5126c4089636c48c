// The ConfigMap write loop, and whole runs of reconciles interleaved with agent writes.
module GenerationRuns {
  import opened Text
  import opened SliceSort
  import opened PolicyDocs
  import opened PolicyRender
  import opened PolicyOrder
  import opened Generation

  // ---------------------------------------------------------------- string maps

  type Labels = map<string, string>

  /** Go's `m[k]`: the empty string when the key is missing. */
  function Lookup(m: Labels, k: string): string {
    if k in m then m[k] else ""
  }

  predicate MapsEqualSpec(a: Labels, b: Labels) {
    |a| == |b| && forall k :: k in a ==> Lookup(b, k) == a[k]
  }

  method MapsEqual(a: Labels, b: Labels) returns (eq: bool)
    ensures eq == MapsEqualSpec(a, b)
  {
    if |a| != |b| {
      return false;
    }
    var keys := a.Keys;
    while keys != {}
      invariant keys <= a.Keys
      invariant forall k :: k in a && k !in keys ==> Lookup(b, k) == a[k]
      decreases keys
    {
      var k :| k in keys;
      if Lookup(b, k) != a[k] {
        return false;
      }
      keys := keys - {k};
    }
    return true;
  }

  lemma SubsetOfSameSize<T>(a: set<T>, b: set<T>)
    requires a <= b && |a| == |b|
    ensures a == b
  {
    if x :| x in b && x !in a {
      SubsetSize(a + {x}, b);
    }
  }

  lemma {:induction false} SubsetSize<T>(a: set<T>, b: set<T>)
    requires a <= b
    ensures |a| <= |b|
  {
    if a != {} {
      var x :| x in a;
      SubsetSize(a - {x}, b - {x});
    }
  }

  /** A key longer than every key of m, so not one of them. */
  lemma {:induction false} FreshKey(keys: set<string>) returns (k: string)
    ensures k !in keys && forall x :: x in keys ==> |x| < |k|
  {
    if keys == {} {
      k := "x";
    } else {
      var x :| x in keys;
      var shorter := FreshKey(keys - {x});
      k := shorter + x + "x";
      forall y | y in keys ensures |y| < |k| {
        if y != x { assert y in keys - {x}; }
      }
    }
  }

  /** `mapsEqual` decides equality for every second map exactly when no value of a is empty. */
  lemma MapsEqualExactly(a: Labels)
    ensures (forall b :: MapsEqualSpec(a, b) <==> a == b) <==> "" !in a.Values
  {
    if "" in a.Values {
      var k :| k in a && a[k] == "";
      var other := FreshKey(a.Keys);
      var b := (a - {k})[other := ""];
      assert |b| == |a| by {
        assert b.Keys == a.Keys - {k} + {other};
        assert |b.Keys| == |a.Keys|;
      }
      assert MapsEqualSpec(a, b) && k !in b;
    } else {
      forall b ensures MapsEqualSpec(a, b) <==> a == b {
        if MapsEqualSpec(a, b) {
          forall k | k in a ensures k in b && b[k] == a[k] {
            assert a[k] in a.Values;
          }
          SubsetOfSameSize(a.Keys, b.Keys);
        }
      }
    }
  }

  /** When keys are only added or overwritten, as here, it is exact. */
  lemma MapsEqualAfterMerge(a: Labels, b: Labels)
    requires a.Keys <= b.Keys
    ensures MapsEqualSpec(a, b) <==> a == b
  {
    if MapsEqualSpec(a, b) {
      SubsetOfSameSize(a.Keys, b.Keys);
    }
  }

  // ---------------------------------------------------------------- owner references

  datatype OwnerRef = OwnerRef(uid: string, name: string, kind: string, controller: bool)

  predicate SameObject(x: OwnerRef, y: OwnerRef) {
    x.kind == y.kind && x.name == y.name
  }

  function FirstController(owners: seq<OwnerRef>): Option<OwnerRef> {
    if owners == [] then None
    else if owners[0].controller then Some(owners[0])
    else FirstController(owners[1..])
  }

  function Upsert(owners: seq<OwnerRef>, ref: OwnerRef): seq<OwnerRef> {
    if owners == [] then [ref]
    else if SameObject(owners[0], ref) then [ref] + owners[1..]
    else [owners[0]] + Upsert(owners[1..], ref)
  }

  /** `SetControllerReference`: refused when another object controls already. */
  function WithController(owners: seq<OwnerRef>, ref: OwnerRef): Option<seq<OwnerRef>> {
    match FirstController(owners)
    case Some(c) => if SameObject(c, ref) then Some(Upsert(owners, ref)) else None
    case None => Some(Upsert(owners, ref))
  }

  predicate OwnerRefsEqual(a: seq<OwnerRef>, b: seq<OwnerRef>) {
    |a| == |b| && forall i :: 0 <= i < |a| ==> a[i].uid == b[i].uid && a[i].name == b[i].name && a[i].kind == b[i].kind
  }

  lemma {:induction false} UpsertTwice(owners: seq<OwnerRef>, ref: OwnerRef)
    requires ref.controller
    ensures Upsert(Upsert(owners, ref), ref) == Upsert(owners, ref)
    ensures WithController(owners, ref).Some? ==>
              FirstController(Upsert(owners, ref)).Some? && SameObject(FirstController(Upsert(owners, ref)).value, ref)
  {
    if owners != [] && !SameObject(owners[0], ref) {
      UpsertTwice(owners[1..], ref);
      assert Upsert(owners, ref)[1..] == Upsert(owners[1..], ref);
    }
  }

  // ---------------------------------------------------------------- the write closure

  const AGENT_STATUS := "kmc.ianunruh.com/agent-status"

  /** The router ConfigMap: `policy` and `script` are its two data keys. */
  datatype ConfigMap = ConfigMap(
    labels: Labels, annotations: Labels, policy: PolicyText, script: string, owners: seq<OwnerRef>)

  /** What stays fixed over a run. */
  datatype Router = Router(inputs: Inputs, labels: Labels, script: string, ref: OwnerRef)

  function DataOf(cm: Option<ConfigMap>): (PolicyText, string) {
    match cm case None => (Blank, "") case Some(c) => (c.policy, c.script)
  }

  datatype Decision = Write(cm: ConfigMap) | Skip | Refused

  /** The ConfigMap the closure wants, given the one it read. */
  function Wanted(r: Router, text: PolicyText, seen: ConfigMap, owners: seq<OwnerRef>): ConfigMap {
    ConfigMap(seen.labels + r.labels,
              if AGENT_STATUS in seen.annotations then seen.annotations else seen.annotations[AGENT_STATUS := "Pending"],
              text, r.script, owners)
  }

  function Decide(r: Router, text: PolicyText, seen: Option<ConfigMap>): Decision {
    match seen
    case None =>
      Write(ConfigMap(r.labels, map[AGENT_STATUS := "Pending"], text, r.script, [r.ref]))
    case Some(cm) =>
      match WithController(cm.owners, r.ref)
      case None => Refused
      case Some(owners) =>
        var after := Wanted(r, text, cm, owners);
        if cm.policy == text && cm.script == r.script
           && MapsEqualSpec(cm.labels, after.labels) && MapsEqualSpec(cm.annotations, after.annotations)
           && OwnerRefsEqual(cm.owners, owners)
        then Skip
        else Write(after)
  }

  /** `mergeLabels`, over Go maps in any order. */
  method MergeLabels(existing: Labels, add: Labels) returns (out: Labels)
    ensures out == existing + add
  {
    out := map[];
    var keys := existing.Keys;
    while keys != {}
      invariant keys <= existing.Keys
      invariant out == map k | k in existing && k !in keys :: existing[k]
      decreases keys
    {
      var k :| k in keys;
      out := out[k := existing[k]];
      keys := keys - {k};
    }
    assert out == existing;
    keys := add.Keys;
    while keys != {}
      invariant keys <= add.Keys
      invariant out == existing + map k | k in add && k !in keys :: add[k]
      decreases keys
    {
      var k :| k in keys;
      out := out[k := add[k]];
      keys := keys - {k};
    }
    assert add == map k | k in add && k !in keys :: add[k];
  }

  /** One pass of the retry closure over the object it has just read. */
  method DecideWrite(r: Router, text: PolicyText, seen: Option<ConfigMap>) returns (decision: Decision)
    ensures decision == Decide(r, text, seen)
  {
    if seen.None? {
      return Write(ConfigMap(r.labels, map[AGENT_STATUS := "Pending"], text, r.script, [r.ref]));
    }
    var before := seen.value;
    var cm := before;
    var labels := MergeLabels(cm.labels, r.labels);
    cm := cm.(labels := labels);
    if AGENT_STATUS !in cm.annotations {
      cm := cm.(annotations := cm.annotations[AGENT_STATUS := "Pending"]);
    }
    var dataChanged := cm.policy != text || cm.script != r.script;
    if dataChanged {
      cm := cm.(policy := text, script := r.script);
    }
    var owners := WithController(cm.owners, r.ref);
    if owners.None? {
      return Refused;
    }
    cm := cm.(owners := owners.value);
    if !dataChanged {
      var sameLabels := MapsEqual(before.labels, cm.labels);
      var sameAnnotations := MapsEqual(before.annotations, cm.annotations);
      if sameLabels && sameAnnotations && OwnerRefsEqual(before.owners, cm.owners) {
        return Skip;
      }
    }
    return Write(cm);
  }

  // ---------------------------------------------------------------- runs

  datatype Phase =
    | Idle
    | Rendered(text: PolicyText)
    | Fetched(text: PolicyText, seen: nat)    // index of the version it read

  /**
   * `versions` are all ConfigMap states so far, the last one current; `statuses` the
   * generations recorded in the Router's status so far. `writes` the reconciler's
   * own creates and updates.
   */
  datatype World = World(versions: seq<Option<ConfigMap>>, statuses: seq<int>, phase: Phase, writes: nat)
  {
    predicate Valid() {
      versions != [] && (phase.Fetched? ==> phase.seen < |versions|)
    }
  }

  datatype Event =
    | Begin(order: Inputs, read: Option<nat>, status: int, text: PolicyText)
                                              // read some version or fail to, render, choose the text
    | Fetch(seen: nat)                        // read some version again
    | Commit(giveUp: bool)                    // create, update, or skip; conflicts retry or give up
    | Heartbeat(annotations: Labels)          // the agent annotates the current version
    | Crash

  function Current(w: World): Option<ConfigMap>
    requires w.versions != []
  {
    w.versions[|w.versions| - 1]
  }

  /** The generation a finished pass records in status: that of its document. */
  function Recorded(text: PolicyText): seq<int> {
    if text.Json? then [text.wire.generation] else []
  }

  /** The text a render compares with. A read that fails is taken for an absent object. */
  function ReadText(w: World, seen: Option<nat>): PolicyText
    requires seen.Some? ==> seen.value < |w.versions|
  {
    match seen case None => Blank case Some(i) => DataOf(w.versions[i]).0
  }

  /** The events that can happen. Reads may return any earlier version, or fail. */
  ghost predicate Possible(r: Router, w: World, event: Event)
    requires w.Valid()
  {
    match event
    case Begin(order, seen, status, text) =>
      && w.phase.Idle? && (seen.Some? ==> seen.value < |w.versions|)
      && status in w.statuses && SameContents(r.inputs, order)
      && Stores(order, ReadText(w, seen), status, text)
    case Fetch(seen) => w.phase.Rendered? && seen < |w.versions|
    case Commit(_) => w.phase.Fetched?
    case Heartbeat(_) => Current(w).Some?
    case Crash => true
  }

  function Step(r: Router, w: World, event: Event): World
    requires w.Valid()
  {
    match event
    case Begin(_, _, _, text) => if w.phase.Idle? then w.(phase := Rendered(text)) else w
    case Fetch(seen) =>
      if w.phase.Rendered? && seen < |w.versions| then w.(phase := Fetched(w.phase.text, seen)) else w
    case Commit(giveUp) =>
      if !w.phase.Fetched? then w
      else
        var text := w.phase.text;
        var done := w.(phase := Idle, statuses := w.statuses + Recorded(text));
        (match Decide(r, text, w.versions[w.phase.seen])
         case Skip => done
         case Refused => w.(phase := Idle)
         case Write(cm) =>
           // A create succeeds only while the object does not exist, an update
           // only on the version that was read.
           if (if w.versions[w.phase.seen].None? then Current(w).None? else w.phase.seen == |w.versions| - 1)
           then done.(versions := w.versions + [Some(cm)], writes := w.writes + 1)
           else if giveUp then w.(phase := Idle)
           else w.(phase := Rendered(text)))
    case Heartbeat(annotations) =>
      (match Current(w)
       case None => w
       case Some(cm) =>
         w.(versions := w.versions + [Some(cm.(annotations := cm.annotations + annotations))]))
    case Crash => w.(phase := Idle)
  }

  lemma StepValid(r: Router, w: World, event: Event)
    requires w.Valid()
    ensures Step(r, w, event).Valid()
  {
    hide Decide;
  }

  /** A run: possible events, one after the other. */
  ghost predicate Reaches(r: Router, w: World, events: seq<Event>, w': World)
    requires w.Valid()
    decreases |events|
  {
    if events == [] then w' == w
    else
      StepValid(r, w, events[0]);
      Possible(r, w, events[0]) && Reaches(r, Step(r, w, events[0]), events[1..], w')
  }

  /** Every render has read the stored document, in some version. */
  predicate Sighted(events: seq<Event>) {
    forall i :: 0 <= i < |events| && events[i].Begin? ==> events[i].read.Some?
  }

  // ---------------------------------------------------------------- at most one change

  /** The document every reconcile of the run arrives at. */
  ghost function Goal(r: Router, stored: PolicyText, statusGen: int): Doc {
    Target(r.inputs, stored, statusGen)
  }

  /** The data of a version: what it was at first, or the goal. */
  predicate AtFirst(base: (PolicyText, string), v: Option<ConfigMap>) {
    DataOf(v) == base
  }

  predicate AtGoal(r: Router, goal: PolicyText, v: Option<ConfigMap>) {
    v.Some? && DataOf(v) == (goal, r.script)
  }

  ghost predicate RunInv(r: Router, stored: PolicyText, script: string, status: int, goal: PolicyText, w: World) {
    && w.Valid()
    && (forall i :: 0 <= i < |w.versions| ==> AtFirst((stored, script), w.versions[i]) || AtGoal(r, goal, w.versions[i]))
    && (forall i, j :: 0 <= i < j < |w.versions| && AtGoal(r, goal, w.versions[i]) ==> AtGoal(r, goal, w.versions[j]))
    && (forall g :: g in w.statuses ==> g == status || (goal.Json? && g == goal.wire.generation))
    && (w.phase.Rendered? ==> w.phase.text == goal)
    && (w.phase.Fetched? ==> w.phase.text == goal)
  }

  lemma TargetIgnoresStatus(x: Inputs, prev: Doc, s1: int, s2: int)
    ensures TargetFrom(x, Some(prev), s1) == TargetFrom(x, Some(prev), s2)
  {
    var u, v := Unsorted(x, StartGeneration(Some(prev), s1)), Unsorted(x, StartGeneration(Some(prev), s2));
    assert u.(generation := 0) == v.(generation := 0);
    assert Desired(u) == Desired(v);
    hide SortSeq;
  }

  /** Whatever version and status a reconcile reads, it renders the goal. */
  lemma BeginRendersGoal(r: Router, stored: PolicyText, status: int, order: Inputs, read: PolicyText, g: int, text: PolicyText)
    requires KeysDetermine(Unsorted(r.inputs, 1)) && SameContents(r.inputs, order)
    requires var goal := Goal(r, stored, status);
             && (read == stored || read == Json(WireOf(goal))) && (g == status || g == goal.generation)
    requires Stores(order, read, g, text)
    ensures text == Json(WireOf(Goal(r, stored, status)))
  {
    TargetIgnoresOrder(r.inputs, order, read, g);
    StoredIsTarget(order, read, g, text);
    TargetIsFixpoint(r.inputs, stored, status, g);
    hide Unsorted, Stores, KeysDetermine, SameContents, TargetFrom;
    if read == stored {
      match ParsedDoc(stored) {
        case Some(prev) => TargetIgnoresStatus(r.inputs, prev, status, g);
        case None => TargetFromStatus(r.inputs, status);
      }
    }
  }

  /** A failed read makes no difference: the status alone leads to the goal too. */
  ghost predicate BlindAgrees(r: Router, stored: PolicyText, status: int) {
    Goal(r, stored, status) == Goal(r, Blank, status)
  }

  /** The event reads the stored document, or could do without. */
  ghost predicate Harmless(r: Router, stored: PolicyText, status: int, event: Event) {
    event.Begin? && event.read == None ==> BlindAgrees(r, stored, status)
  }

  lemma StepKeepsInv(r: Router, stored: PolicyText, script: string, status: int, w: World, event: Event)
    requires KeysDetermine(Unsorted(r.inputs, 1)) && Harmless(r, stored, status, event)
    requires RunInv(r, stored, script, status, Json(WireOf(Goal(r, stored, status))), w) && Possible(r, w, event)
    ensures Step(r, w, event).Valid()
    ensures RunInv(r, stored, script, status, Json(WireOf(Goal(r, stored, status))), Step(r, w, event))
  {
    var goal := Json(WireOf(Goal(r, stored, status)));
    StepValid(r, w, event);
    if event.Begin? {
      BeginReads(r, stored, script, status, w, event.order, event.read, event.status, event.text);
    }
    hide Goal, Unsorted, KeysDetermine, SameContents, Stores, RunInv, Step, WireOf;
    match event
    case Begin(_, _, _, _) => PhaseStepKeepsInv(r, stored, script, status, goal, w, event);
    case Fetch(_) => PhaseStepKeepsInv(r, stored, script, status, goal, w, event);
    case Crash => PhaseStepKeepsInv(r, stored, script, status, goal, w, event);
    case Commit(giveUp) => CommitKeepsInv(r, stored, script, status, goal, w, giveUp);
    case Heartbeat(annotations) => HeartbeatKeepsInv(r, stored, script, status, goal, w, annotations);
  }

  lemma PhaseStepKeepsInv(r: Router, stored: PolicyText, script: string, status: int, goal: PolicyText, w: World, event: Event)
    requires RunInv(r, stored, script, status, goal, w)
    requires event.Fetch? || event.Crash? || (event.Begin? && event.text == goal)
    ensures RunInv(r, stored, script, status, goal, Step(r, w, event))
  {
  }

  lemma CommitKeepsInv(r: Router, stored: PolicyText, script: string, status: int, goal: PolicyText, w: World, giveUp: bool)
    requires RunInv(r, stored, script, status, goal, w)
    ensures RunInv(r, stored, script, status, goal, Step(r, w, Commit(giveUp)))
  {
    var w' := Step(r, w, Commit(giveUp));
    if w.phase.Fetched? {
      WritesText(r, w.phase.text, w.versions[w.phase.seen]);
    }
    hide Decide;
    if w'.versions != w.versions {
      assert w'.versions[..|w.versions|] == w.versions;
      AppendKeepsInv(r, stored, script, goal, w, w');
    }
  }

  lemma WritesText(r: Router, text: PolicyText, seen: Option<ConfigMap>)
    ensures Decide(r, text, seen).Write? ==> AtGoal(r, text, Some(Decide(r, text, seen).cm))
  {
  }

  lemma HeartbeatKeepsInv(r: Router, stored: PolicyText, script: string, status: int, goal: PolicyText, w: World, annotations: Labels)
    requires RunInv(r, stored, script, status, goal, w)
    ensures RunInv(r, stored, script, status, goal, Step(r, w, Heartbeat(annotations)))
  {
    var w' := Step(r, w, Heartbeat(annotations));
    if w'.versions != w.versions {
      assert w'.versions[..|w.versions|] == w.versions;
      AppendKeepsInv(r, stored, script, goal, w, w');
    }
  }

  lemma BeginReads(r: Router, stored: PolicyText, script: string, status: int, w: World,
                   order: Inputs, seen: Option<nat>, g: int, text: PolicyText)
    requires KeysDetermine(Unsorted(r.inputs, 1)) && Harmless(r, stored, status, Begin(order, seen, g, text))
    requires RunInv(r, stored, script, status, Json(WireOf(Goal(r, stored, status))), w)
    requires Possible(r, w, Begin(order, seen, g, text))
    ensures text == Json(WireOf(Goal(r, stored, status)))
  {
    hide Unsorted, KeysDetermine, SameContents, Stores, Goal;
    match seen
    case Some(i) =>
      assert AtFirst((stored, script), w.versions[i]) || AtGoal(r, Json(WireOf(Goal(r, stored, status))), w.versions[i]);
      BeginRendersGoal(r, stored, status, order, DataOf(w.versions[i]).0, g, text);
    case None =>
      BeginRendersGoal(r, Blank, status, order, Blank, g, text);
  }

  lemma AppendKeepsInv(r: Router, stored: PolicyText, script: string, goal: PolicyText, w: World, w': World)
    requires w.versions != [] && |w'.versions| == |w.versions| + 1 && w'.versions[..|w.versions|] == w.versions
    requires forall i :: 0 <= i < |w.versions| ==> AtFirst((stored, script), w.versions[i]) || AtGoal(r, goal, w.versions[i])
    requires forall i, j :: 0 <= i < j < |w.versions| && AtGoal(r, goal, w.versions[i]) ==> AtGoal(r, goal, w.versions[j])
    requires AtGoal(r, goal, w'.versions[|w.versions|])
             || (w'.versions[|w.versions|].Some? && Current(w).Some?
                 && DataOf(w'.versions[|w.versions|]) == DataOf(Current(w)))
    ensures forall i :: 0 <= i < |w'.versions| ==> AtFirst((stored, script), w'.versions[i]) || AtGoal(r, goal, w'.versions[i])
    ensures forall i, j :: 0 <= i < j < |w'.versions| && AtGoal(r, goal, w'.versions[i]) ==> AtGoal(r, goal, w'.versions[j])
  {
    var n := |w.versions|;
    assert forall i :: 0 <= i < n ==> w'.versions[i] == w.versions[i];
    assert AtFirst((stored, script), w.versions[n - 1]) || AtGoal(r, goal, w.versions[n - 1]);
    if AtGoal(r, goal, w.versions[n - 1]) {
      assert AtGoal(r, goal, w'.versions[n]);
    }
    forall i | 0 <= i < n && AtGoal(r, goal, w'.versions[i]) ensures AtGoal(r, goal, w'.versions[n]) {
      if i < n - 1 {
        assert AtGoal(r, goal, w.versions[n - 1]);
      }
    }
  }

  /** A world before anything has happened. */
  predicate Initial(w: World) {
    |w.versions| == 1 && |w.statuses| == 1 && w.phase.Idle? && w.writes == 0
  }

  /** A whole run, from the beginning. */
  ghost predicate FullRun(r: Router, w: World, events: seq<Event>, w': World) {
    Initial(w) && Reaches(r, w, events, w')
  }

  lemma {:induction false} RunKeepsInv(r: Router, stored: PolicyText, script: string, status: int, w: World, events: seq<Event>, w': World)
    requires KeysDetermine(Unsorted(r.inputs, 1)) && w.Valid() && (Sighted(events) || BlindAgrees(r, stored, status))
    requires RunInv(r, stored, script, status, Json(WireOf(Goal(r, stored, status))), w) && Reaches(r, w, events, w')
    ensures RunInv(r, stored, script, status, Json(WireOf(Goal(r, stored, status))), w')
    decreases |events|
  {
    hide RunInv, BlindAgrees, Unsorted, KeysDetermine, Possible, Step, Goal;
    if events != [] {
      assert Sighted(events) ==> Sighted(events[1..]);
      StepKeepsInv(r, stored, script, status, w, events[0]);
      RunKeepsInv(r, stored, script, status, Step(r, w, events[0]), events[1..], w');
    }
  }

  /** The data changes at one point of the history at most. */
  ghost predicate ChangesOnce(w: World) {
    exists k: nat {:trigger SameUpTo(w, k)} :: k <= |w.versions| && SameUpTo(w, k) && SameFrom(w, k)
  }

  ghost predicate SameUpTo(w: World, k: nat) {
    forall i, j :: 0 <= i < k && 0 <= j < k && i < |w.versions| && j < |w.versions|
                   ==> DataOf(w.versions[i]) == DataOf(w.versions[j])
  }

  ghost predicate SameFrom(w: World, k: nat) {
    forall i, j :: k <= i < |w.versions| && k <= j < |w.versions| ==> DataOf(w.versions[i]) == DataOf(w.versions[j])
  }

  lemma {:induction false} FirstGoal(r: Router, goal: PolicyText, w: World, n: nat) returns (k: nat)
    requires n <= |w.versions|
    requires forall i, j :: 0 <= i < j < |w.versions| && AtGoal(r, goal, w.versions[i]) ==> AtGoal(r, goal, w.versions[j])
    ensures k <= n
    ensures forall i :: 0 <= i < k ==> !AtGoal(r, goal, w.versions[i])
    ensures k < n ==> forall i :: k <= i < |w.versions| ==> AtGoal(r, goal, w.versions[i])
    ensures n == |w.versions| ==> forall i :: k <= i < |w.versions| ==> AtGoal(r, goal, w.versions[i])
  {
    if n == 0 {
      k := 0;
    } else {
      k := FirstGoal(r, goal, w, n - 1);
      if k == n - 1 && !AtGoal(r, goal, w.versions[n - 1]) {
        k := n;
      }
    }
  }

  /**
   * With the cluster contents and the resolved interfaces fixed and sort keys
   * determining entries, any interleaving of reconciles, stale reads, conflicts,
   * crashes and heartbeats changes the stored data at most once, and only to the goal,
   * when no read of the stored document fails or the status would lead there too.
   */
  lemma DataChangesAtMostOnce(r: Router, w: World, events: seq<Event>, w': World)
    requires KeysDetermine(Unsorted(r.inputs, 1)) && FullRun(r, w, events, w')
    requires Sighted(events) || BlindAgrees(r, DataOf(w.versions[0]).0, w.statuses[0])
    ensures ChangesOnce(w')
    ensures var goal := Json(WireOf(Goal(r, DataOf(w.versions[0]).0, w.statuses[0])));
            forall v :: v in w'.versions ==> DataOf(v) == DataOf(w.versions[0]) || DataOf(v) == (goal, r.script)
  {
    var (stored, script) := DataOf(w.versions[0]);
    var goal := Json(WireOf(Goal(r, stored, w.statuses[0])));
    assert RunInv(r, stored, script, w.statuses[0], goal, w);
    RunKeepsInv(r, stored, script, w.statuses[0], w, events, w');
    hide Goal, Unsorted, KeysDetermine, Reaches, BlindAgrees;
    var k := FirstGoal(r, goal, w', |w'.versions|);
    assert forall i :: 0 <= i < k ==> AtFirst((stored, script), w'.versions[i]);
    assert SameUpTo(w', k) && SameFrom(w', k);
  }

  /** The one new generation: the old one, or the old one plus one. */
  lemma GoalGeneration(r: Router, prev: Doc, status: int)
    ensures var goal := Goal(r, Json(WireOf(prev)), status);
            && goal.generation >= 1
            && (1 <= prev.generation < MAX_INT64 ==> goal.generation in {prev.generation, prev.generation + 1})
            && (prev.apiVersion != "" && prev.kind != "" && 1 <= prev.generation < MAX_INT64 ==>
                  (goal.generation == prev.generation <==> Desired(goal) == Desired(prev)))
  {
    var p := ParsedDoc(Json(WireOf(prev))).value;
    var u := Unsorted(r.inputs, StartGeneration(Some(p), status));
    SomeSort(u);
    hide Unsorted, SortSeq;
    assert Desired(Goal(r, Json(WireOf(prev)), status)) == Desired(u);
  }

  // ---------------------------------------------------------------- quiet

  /** The reconciler has nothing to write to this version. */
  predicate Settled(r: Router, text: PolicyText, cm: Option<ConfigMap>) {
    cm.Some? && Decide(r, text, cm) == Skip
  }

  /** What a write leaves behind needs no further write. */
  lemma WrittenIsSettled(r: Router, text: PolicyText, seen: Option<ConfigMap>, cm: ConfigMap)
    requires r.ref.controller && Decide(r, text, seen) == Write(cm)
    ensures Settled(r, text, Some(cm))
  {
    match seen
    case None =>
      assert r.labels + r.labels == r.labels;
    case Some(old0) =>
      UpsertTwice(old0.owners, r.ref);
      assert (old0.labels + r.labels) + r.labels == old0.labels + r.labels;
  }

  lemma HeartbeatStaysSettled(r: Router, text: PolicyText, cm: ConfigMap, annotations: Labels)
    requires Settled(r, text, Some(cm))
    ensures Settled(r, text, Some(cm.(annotations := cm.annotations + annotations)))
  {
    var owners := WithController(cm.owners, r.ref).value;
    hide WithController;
    MapsEqualAfterMerge(cm.annotations, Wanted(r, text, cm, owners).annotations);
    assert AGENT_STATUS in cm.annotations;
  }

  lemma StepStaysQuiet(r: Router, stored: PolicyText, script: string, status: int, goal: PolicyText, w: World, event: Event)
    requires RunInv(r, stored, script, status, goal, w) && Settled(r, goal, Current(w))
    ensures Step(r, w, event).Valid()
    ensures Step(r, w, event).writes == w.writes && Settled(r, goal, Current(Step(r, w, event)))
  {
    StepValid(r, w, event);
    InvPhase(r, stored, script, status, goal, w);
    hide Decide, RunInv, Settled;
    if event.Heartbeat? {
      SettledExists(r, goal, Current(w));
      HeartbeatStaysSettled(r, goal, Current(w).value, event.annotations);
      assert Current(Step(r, w, event)).Some?;
    } else if event.Commit? {
      CommitStaysQuiet(r, goal, w, event.giveUp);
    }
  }

  lemma SettledExists(r: Router, goal: PolicyText, cm: Option<ConfigMap>)
    requires Settled(r, goal, cm)
    ensures cm.Some?
  {
  }

  lemma CommitStaysQuiet(r: Router, goal: PolicyText, w: World, giveUp: bool)
    requires w.Valid() && Settled(r, goal, Current(w)) && (w.phase.Fetched? ==> w.phase.text == goal)
    ensures Step(r, w, Commit(giveUp)).versions == w.versions && Step(r, w, Commit(giveUp)).writes == w.writes
  {
    hide Decide;
    if w.phase.Fetched? {
      var seen := w.versions[w.phase.seen];
      if w.phase.seen == |w.versions| - 1 {
        assert Decide(r, goal, seen) == Skip;
      }
    }
  }

  lemma InvPhase(r: Router, stored: PolicyText, script: string, status: int, goal: PolicyText, w: World)
    requires RunInv(r, stored, script, status, goal, w)
    ensures w.Valid()
    ensures w.phase.Rendered? || w.phase.Fetched? ==> w.phase.text == goal
  {
  }

  /** Once settled, a run writes nothing more: heartbeats wake the reconciler in vain. */
  lemma {:induction false} QuietForever(r: Router, stored: PolicyText, script: string, status: int, w: World, events: seq<Event>, w': World)
    requires KeysDetermine(Unsorted(r.inputs, 1)) && w.Valid() && (Sighted(events) || BlindAgrees(r, stored, status))
    requires var goal := Json(WireOf(Goal(r, stored, status)));
             RunInv(r, stored, script, status, goal, w) && Settled(r, goal, Current(w))
    requires Reaches(r, w, events, w')
    ensures w'.writes == w.writes
    ensures w'.Valid() && Settled(r, Json(WireOf(Goal(r, stored, status))), Current(w'))
    decreases |events|
  {
    hide RunInv, Goal, Unsorted, KeysDetermine, Possible, Step, Settled, BlindAgrees;
    if events != [] {
      assert Sighted(events) ==> Sighted(events[1..]);
      StepKeepsInv(r, stored, script, status, w, events[0]);
      StepStaysQuiet(r, stored, script, status, Json(WireOf(Goal(r, stored, status))), w, events[0]);
      QuietForever(r, stored, script, status, Step(r, w, events[0]), events[1..], w');
    }
  }

  /** One uncontended read and write settles the object, or the reference is refused. */
  lemma UncontendedPassSettles(r: Router, w: World, text: PolicyText)
    requires w.Valid() && r.ref.controller && w.phase == Rendered(text)
    ensures var w1 := Step(r, w, Fetch(|w.versions| - 1));
            var w2 := Step(r, w1, Commit(false));
            && w2.Valid()
            && ((Decide(r, text, Current(w)) == Refused && w2.versions == w.versions)
                || Settled(r, text, Current(w2)))
  {
    hide Decide;
    var w1 := Step(r, w, Fetch(|w.versions| - 1));
    StepValid(r, w1, Commit(false));
    match Decide(r, text, Current(w))
    case Write(cm) =>
      WrittenIsSettled(r, text, Current(w), cm);
    case Skip => NoneIsWritten(r, text, Current(w));
    case Refused =>
  }

  lemma NoneIsWritten(r: Router, text: PolicyText, seen: Option<ConfigMap>)
    ensures seen.None? ==> Decide(r, text, seen).Write?
  {
  }

  // ---------------------------------------------------------------- passes

  function Holding(r: Router, text: PolicyText): Option<ConfigMap> {
    Some(ConfigMap(r.labels, map[AGENT_STATUS := "Pending"], text, r.script, [r.ref]))
  }

  /** One pass: read, render in some list order, fetch the current object, write. */
  function Pass(order: Inputs, seen: Option<nat>, status: int, last: nat, text: PolicyText): seq<Event> {
    [Begin(order, seen, status, text), Fetch(last), Commit(false)]
  }

  /** The object after its text has been replaced by a pass. */
  function Replaced(r: Router, cm: ConfigMap, text: PolicyText, owners: seq<OwnerRef>): World -> World {
    (w: World) => World(w.versions + [Some(Wanted(r, text, cm, owners))], w.statuses + Recorded(text), Idle, w.writes + 1)
  }

  /** A pass that finds another text stored replaces it. */
  lemma PassReaches(r: Router, w: World, order: Inputs, seen: Option<nat>, status: int, text: PolicyText,
                    cm: ConfigMap, owners: seq<OwnerRef>, rest: seq<Event>, w': World)
    requires w.versions != [] && w.phase == Idle && Current(w) == Some(cm)
    requires cm.policy != text && WithController(cm.owners, r.ref) == Some(owners)
    requires Possible(r, w, Begin(order, seen, status, text))
    requires Reaches(r, Replaced(r, cm, text, owners)(w), rest, w')
    ensures Reaches(r, w, Pass(order, seen, status, |w.versions| - 1, text) + rest, w')
  {
    hide Possible, WithController;
    var last := |w.versions| - 1;
    var all := Pass(order, seen, status, last, text) + rest;
    assert all[1..] == [Fetch(last), Commit(false)] + rest;
    assert all[1..][1..] == [Commit(false)] + rest;
    assert all[1..][1..][1..] == rest;
    var w1, w2 := w.(phase := Rendered(text)), w.(phase := Fetched(text, last));
    assert Step(r, w, all[0]) == w1 && Step(r, w1, Fetch(last)) == w2;
    assert Step(r, w2, Commit(false)) == Replaced(r, cm, text, owners)(w);
    PhasesPossible(r, w, last, text);
    assert Reaches(r, w2, [Commit(false)] + rest, w') by {
      assert ([Commit(false)] + rest)[1..] == rest;
    }
    assert Reaches(r, w1, [Fetch(last), Commit(false)] + rest, w');
  }

  lemma PhasesPossible(r: Router, w: World, last: nat, text: PolicyText)
    requires w.versions != [] && last < |w.versions|
    ensures Possible(r, w.(phase := Rendered(text)), Fetch(last))
    ensures Possible(r, w.(phase := Fetched(text, last)), Commit(false))
  {
  }

  lemma SameSelf(x: Inputs)
    ensures SameContents(x, x)
  {
  }

  /** After a write the reference is in place, so the next write is not refused. */
  lemma StillControlled(cm: ConfigMap, r: Router, text: PolicyText, owners: seq<OwnerRef>)
    requires r.ref.controller && WithController(cm.owners, r.ref) == Some(owners)
    ensures WithController(Wanted(r, text, cm, owners).owners, r.ref) == Some(owners)
  {
    UpsertTwice(cm.owners, r.ref);
  }

  /** Two passes that write different texts, the second different from the first. */
  lemma TwoPasses(r: Router, w: World, cm: ConfigMap, owners: seq<OwnerRef>,
                  order1: Inputs, seen1: Option<nat>, status1: int, t1: PolicyText,
                  order2: Inputs, seen2: Option<nat>, status2: int, t2: PolicyText)
    returns (w': World)
    requires r.ref.controller && Initial(w) && w.versions == [Some(cm)] && WithController(cm.owners, r.ref) == Some(owners)
    requires cm.policy != t1 && t1 != t2
    requires Possible(r, w, Begin(order1, seen1, status1, t1))
    requires Possible(r, Replaced(r, cm, t1, owners)(w), Begin(order2, seen2, status2, t2))
    ensures var events := Pass(order1, seen1, status1, 0, t1) + Pass(order2, seen2, status2, 1, t2);
            && FullRun(r, w, events, w') && !ChangesOnce(w')
            && |w'.versions| == 3 && DataOf(w'.versions[1]) == (t1, r.script) && DataOf(w'.versions[2]) == (t2, r.script)
  {
    var w1 := Replaced(r, cm, t1, owners)(w);
    var cm1 := Wanted(r, t1, cm, owners);
    StillControlled(cm, r, t1, owners);
    w' := Replaced(r, cm1, t2, owners)(w1);
    hide Possible, Reaches, ChangesOnce, WithController, Wanted;
    assert cm1.policy == t1 && Wanted(r, t2, cm1, owners).policy == t2 by { WantedData(r, t1, cm, owners); WantedData(r, t2, cm1, owners); }
    NothingReached(r, w');
    PassReaches(r, w1, order2, seen2, status2, t2, cm1, owners, [], w');
    assert Pass(order2, seen2, status2, 1, t2) + [] == Pass(order2, seen2, status2, 1, t2);
    PassReaches(r, w, order1, seen1, status1, t1, cm, owners, Pass(order2, seen2, status2, 1, t2), w');
    WantedData(r, t1, cm, owners);
    WantedData(r, t2, cm1, owners);
    NoSingleChange(w', cm.policy, t1, t2);
  }

  lemma WantedData(r: Router, text: PolicyText, cm: ConfigMap, owners: seq<OwnerRef>)
    ensures Wanted(r, text, cm, owners).policy == text && Wanted(r, text, cm, owners).script == r.script
    ensures DataOf(Some(Wanted(r, text, cm, owners))) == (text, r.script)
  {
  }

  /** When a pass may begin as the first or the second of a run. */
  lemma FirstPossible(r: Router, w: World, cm: ConfigMap, g: int, order: Inputs, read: Option<nat>, text: PolicyText)
    requires w == World([Some(cm)], [g], Idle, 0) && read in {None, Some(0)} && SameContents(r.inputs, order)
    requires Stores(order, if read == None then Blank else cm.policy, g, text)
    ensures Initial(w) && Possible(r, w, Begin(order, read, g, text))
  {
    hide Stores, SameContents;
  }

  lemma SecondPossible(r: Router, w: World, cm: ConfigMap, g: int, t1: PolicyText, owners: seq<OwnerRef>,
                       order: Inputs, read: Option<nat>, text: PolicyText)
    requires w == World([Some(cm)], [g], Idle, 0) && read in {None, Some(0), Some(1)} && SameContents(r.inputs, order)
    requires Stores(order, if read == None then Blank else if read == Some(0) then cm.policy else t1, g, text)
    ensures var w1 := Replaced(r, cm, t1, owners)(w); w1.Valid() && Possible(r, w1, Begin(order, read, g, text))
  {
    WantedData(r, t1, cm, owners);
    hide Stores, SameContents, Wanted;
  }

  lemma NothingReached(r: Router, w: World)
    requires w.Valid()
    ensures Reaches(r, w, [], w)
  {
  }

  lemma NoSingleChange(w: World, t0: PolicyText, t1: PolicyText, t2: PolicyText)
    requires |w.versions| == 3
    requires DataOf(w.versions[0]).0 == t0 && DataOf(w.versions[1]).0 == t1 && DataOf(w.versions[2]).0 == t2
    requires t0 != t1 && t1 != t2
    ensures !ChangesOnce(w)
  {
    forall k: nat | k <= 3 ensures !(SameUpTo(w, k) && SameFrom(w, k)) {
      if k <= 1 {
        assert DataOf(w.versions[1]) != DataOf(w.versions[2]);
      } else {
        assert DataOf(w.versions[0]) != DataOf(w.versions[1]);
      }
    }
  }

  // ---------------------------------------------------------------- a read that fails

  /** Whatever is stored, a render that has not read it stores the status generation. */
  lemma BlindGeneration(r: Router, status: int)
    ensures Goal(r, Blank, status).generation == if status > 0 then status else 1
    ensures Desired(Goal(r, Blank, status)) == Desired(Unsorted(r.inputs, 1))
  {
    SomeSort(Unsorted(r.inputs, if status > 0 then status else 1));
    hide SortSeq, LeasesOf, FloatingIPsOf, ForwardsOf;
  }

  /** The two goals differ in their generation only. */
  lemma BlindAgreesExactly(r: Router, stored: PolicyText, status: int)
    ensures BlindAgrees(r, stored, status)
       <==> Goal(r, stored, status).generation == if status > 0 then status else 1
  {
    BlindGeneration(r, status);
    var prev := ParsedDoc(stored);
    var u, v := Unsorted(r.inputs, StartGeneration(prev, status)), Unsorted(r.inputs, StartGeneration(None, status));
    hide SortSeq, LeasesOf, FloatingIPsOf, ForwardsOf;
    assert Goal(r, stored, status).(generation := 0) == Goal(r, Blank, status).(generation := 0);
  }

  /**
   * The router's contents have changed since generation g was stored. One pass stores
   * the new contents as g + 1 and ends before it records that; the next fails to read
   * the object, counts from the status, and stores them again as g: a second change,
   * and the generation goes down.
   */
  lemma LostReadGoesBack(r: Router, prev: Doc, cm: ConfigMap, owners: seq<OwnerRef>) returns (w: World, events: seq<Event>, w': World)
    requires KeysDetermine(Unsorted(r.inputs, 1)) && r.ref.controller
    requires prev.apiVersion != "" && prev.kind != "" && 1 <= prev.generation < MAX_INT64
    requires Desired(prev) != Desired(Unsorted(r.inputs, 1))
    requires cm.policy == Json(WireOf(prev)) && WithController(cm.owners, r.ref) == Some(owners)
    ensures w == World([Some(cm)], [prev.generation], Idle, 0) && FullRun(r, w, events, w') && !ChangesOnce(w')
    ensures |w'.versions| == 3
    ensures DataOf(w'.versions[1]).0 == Json(WireOf(Goal(r, cm.policy, prev.generation)))
    ensures DataOf(w'.versions[2]).0 == Json(WireOf(Goal(r, Blank, prev.generation)))
    ensures Goal(r, cm.policy, prev.generation).generation == prev.generation + 1
    ensures Goal(r, Blank, prev.generation).generation == prev.generation
  {
    var g := prev.generation;
    w := World([Some(cm)], [g], Idle, 0);
    var ta, tb := Json(WireOf(Goal(r, cm.policy, g))), Json(WireOf(Goal(r, Blank, g)));
    GoalsApart(r, prev);
    GoalIsStored(r, cm.policy, g);
    GoalIsStored(r, Blank, g);
    SameSelf(r.inputs);
    hide Goal, Unsorted, KeysDetermine, Stores, SameContents, WireOf, WithController, Desired;
    FirstPossible(r, w, cm, g, r.inputs, Some(0), ta);
    SecondPossible(r, w, cm, g, ta, owners, r.inputs, None, tb);
    hide Possible, Replaced;
    w' := TwoPasses(r, w, cm, owners, r.inputs, Some(0), g, ta, r.inputs, None, g, tb);
    events := Pass(r.inputs, Some(0), g, 0, ta) + Pass(r.inputs, None, g, 1, tb);
  }

  /** With other contents stored as g, one goal is numbered g + 1, the blind one g. */
  lemma GoalsApart(r: Router, prev: Doc)
    requires prev.apiVersion != "" && prev.kind != "" && 1 <= prev.generation < MAX_INT64
    requires Desired(prev) != Desired(Unsorted(r.inputs, 1))
    ensures var g, stored := prev.generation, Json(WireOf(prev));
            && Goal(r, stored, g).generation == g + 1 && Goal(r, Blank, g).generation == g
            && Json(WireOf(Goal(r, stored, g))) != Json(WireOf(Goal(r, Blank, g)))
            && Json(WireOf(Goal(r, stored, g))) != stored
  {
    var g := prev.generation;
    ParseMarshal(prev);
    BlindGeneration(r, g);
    hide SortSeq, LeasesOf, FloatingIPsOf, ForwardsOf;
    assert Desired(Unsorted(r.inputs, g)) == Desired(Unsorted(r.inputs, 1));
  }

  /** The goal is what a render of that text may store. */
  lemma GoalIsStored(r: Router, stored: PolicyText, status: int)
    requires KeysDetermine(Unsorted(r.inputs, 1))
    ensures Stores(r.inputs, stored, status, Json(WireOf(Goal(r, stored, status))))
  {
    var rank := ComparisonSortsExist();
    StoresByStores(rank, r.inputs, stored, status);
    StoredIsTarget(r.inputs, stored, status, StoresBy(rank, r.inputs, stored, status));
    hide Stores, StoresBy, Target;
  }

  /**
   * With failing reads too, all runs from a start change the data at most once exactly
   * when the status leads to the same generation as the stored document, or the object
   * belongs to another controller and is never written.
   */
  lemma LostReadsHarmlessExactly(r: Router, w: World)
    requires KeysDetermine(Unsorted(r.inputs, 1)) && r.ref.controller && Initial(w)
    ensures var stored, status := DataOf(w.versions[0]).0, w.statuses[0];
            (forall events, w' :: FullRun(r, w, events, w') ==> ChangesOnce(w'))
            <==> Goal(r, stored, status).generation == (if status > 0 then status else 1)
                 || (w.versions[0].Some? && WithController(w.versions[0].value.owners, r.ref) == None)
  {
    var stored, status := DataOf(w.versions[0]).0, w.statuses[0];
    BlindAgreesExactly(r, stored, status);
    hide ChangesOnce, Goal, Unsorted, KeysDetermine, WithController, BlindAgrees, FullRun;
    if BlindAgrees(r, stored, status) {
      forall events, w' | FullRun(r, w, events, w') ensures ChangesOnce(w') {
        DataChangesAtMostOnce(r, w, events, w');
      }
    } else if w.versions[0].Some? && WithController(w.versions[0].value.owners, r.ref) == None {
      forall events, w' | FullRun(r, w, events, w') ensures ChangesOnce(w') {
        NeverWritten(r, w, events, w');
      }
    } else {
      AbsentAgrees(r, status);
      var events, w' := BlindThenOld(r, w, w.versions[0].value, WithController(w.versions[0].value.owners, r.ref).value);
    }
  }

  lemma AbsentAgrees(r: Router, status: int)
    ensures BlindAgrees(r, DataOf(None).0, status)
  {
  }

  /** One pass fails its read, the next reads the object as it was at first. */
  lemma BlindThenOld(r: Router, w: World, cm: ConfigMap, owners: seq<OwnerRef>) returns (events: seq<Event>, w': World)
    requires KeysDetermine(Unsorted(r.inputs, 1)) && r.ref.controller && Initial(w) && w.versions == [Some(cm)]
    requires WithController(cm.owners, r.ref) == Some(owners) && !BlindAgrees(r, cm.policy, w.statuses[0])
    ensures FullRun(r, w, events, w') && !ChangesOnce(w')
  {
    var g := w.statuses[0];
    var ta, tb := Json(WireOf(Goal(r, cm.policy, g))), Json(WireOf(Goal(r, Blank, g)));
    BothPossible(r, w, cm, owners, g);
    TextsDiffer(r, cm.policy, g);
    hide Goal, Unsorted, KeysDetermine, SameContents, WireOf, BlindAgrees, Possible, Replaced, WithController, Reaches, ChangesOnce;
    w' := TwoPasses(r, w, cm, owners, r.inputs, None, g, tb, r.inputs, Some(0), g, ta);
    events := Pass(r.inputs, None, g, 0, tb) + Pass(r.inputs, Some(0), g, 1, ta);
  }

  lemma BothPossible(r: Router, w: World, cm: ConfigMap, owners: seq<OwnerRef>, g: int)
    requires KeysDetermine(Unsorted(r.inputs, 1)) && w == World([Some(cm)], [g], Idle, 0)
    ensures var ta, tb := Json(WireOf(Goal(r, cm.policy, g))), Json(WireOf(Goal(r, Blank, g)));
            var w1 := Replaced(r, cm, tb, owners)(w);
            && Initial(w) && Possible(r, w, Begin(r.inputs, None, g, tb))
            && w1.Valid() && Possible(r, w1, Begin(r.inputs, Some(0), g, ta))
  {
    var ta, tb := Json(WireOf(Goal(r, cm.policy, g))), Json(WireOf(Goal(r, Blank, g)));
    GoalIsStored(r, cm.policy, g);
    GoalIsStored(r, Blank, g);
    SameSelf(r.inputs);
    hide Goal, Unsorted, KeysDetermine, Stores, SameContents, WireOf, Possible, Replaced;
    FirstPossible(r, w, cm, g, r.inputs, None, tb);
    SecondPossible(r, w, cm, g, tb, owners, r.inputs, Some(0), ta);
  }

  /** When the goals differ, so do their texts, and the blind one is not stored already. */
  lemma TextsDiffer(r: Router, stored: PolicyText, status: int)
    requires KeysDetermine(Unsorted(r.inputs, 1)) && !BlindAgrees(r, stored, status)
    ensures Json(WireOf(Goal(r, stored, status))) != Json(WireOf(Goal(r, Blank, status)))
    ensures stored != Json(WireOf(Goal(r, Blank, status)))
  {
    TargetIsFixpoint(r.inputs, Blank, status, status);
    TargetIsFixpoint(r.inputs, stored, status, status);
    hide Unsorted, KeysDetermine, WireOf, TargetFrom;
  }

  /** An object of another controller is never written, so all that is appended are heartbeats. */
  lemma {:induction false} NeverWritten(r: Router, w: World, events: seq<Event>, w': World)
    requires FullRun(r, w, events, w') && w.versions[0].Some? && WithController(w.versions[0].value.owners, r.ref) == None
    ensures ChangesOnce(w')
  {
    RefusedRun(r, w.versions[0].value, w, events, w');
    assert SameUpTo(w', |w'.versions|) && SameFrom(w', |w'.versions|);
  }

  /** All versions have the first one's data and owners. */
  predicate Untouched(w: World, first: ConfigMap) {
    w.Valid() && forall i :: 0 <= i < |w.versions| ==>
      w.versions[i].Some? && w.versions[i].value == first.(annotations := w.versions[i].value.annotations)
  }

  lemma {:induction false} RefusedRun(r: Router, first: ConfigMap, w: World, events: seq<Event>, w': World)
    requires w.Valid() && Untouched(w, first) && WithController(first.owners, r.ref) == None && Reaches(r, w, events, w')
    ensures Untouched(w', first)
    decreases |events|
  {
    hide WithController, Possible;
    if events != [] {
      RefusedStep(r, first, w, events[0]);
      RefusedRun(r, first, Step(r, w, events[0]), events[1..], w');
    }
  }

  lemma RefusedStep(r: Router, first: ConfigMap, w: World, event: Event)
    requires w.Valid() && Untouched(w, first) && WithController(first.owners, r.ref) == None
    ensures Step(r, w, event).Valid() && Untouched(Step(r, w, event), first)
  {
    hide WithController, MapsEqualSpec, OwnerRefsEqual;
    StepValid(r, w, event);
  }

  // ---------------------------------------------------------------- without determined keys

  /** A run in which one fixed sort is at work throughout. */
  ghost predicate SortsBy(rank: Ranking, r: Router, w: World, events: seq<Event>)
    requires IsComparisonSort(rank) && w.Valid()
    decreases |events|
  {
    events == [] ||
    (var e := events[0];
     StepValid(r, w, e);
     && ((e.Begin? && (e.read.Some? ==> e.read.value < |w.versions|))
         ==> e.text == StoresBy(rank, e.order, ReadText(w, e.read), e.status))
     && SortsBy(rank, r, Step(r, w, e), events[1..]))
  }

  ghost predicate SortedRun(rank: Ranking, r: Router, w: World, events: seq<Event>, w': World)
    requires IsComparisonSort(rank)
  {
    FullRun(r, w, events, w') && Sighted(events) && SortsBy(rank, r, w, events)
  }

  /** Of two twins in list order, one at least disagrees with what is stored. */
  lemma OneDisagrees(rank: Ranking, x: Inputs, y: Inputs, prev: Doc, status: int)
    requires IsComparisonSort(rank) && 1 <= prev.generation < MAX_INT64
    requires forall g: int :: DocTwins(Unsorted(x, g), Unsorted(y, g)) && Unsorted(x, g) != Unsorted(y, g)
    ensures WrittenBy(rank, x, Some(prev), status).generation == prev.generation + 1
            || WrittenBy(rank, y, Some(prev), status).generation == prev.generation + 1
  {
    var g := StartGeneration(Some(prev), status);
    hide Unsorted, IsComparisonSort, DocTwins, SortedBy;
    assert DocTwins(Unsorted(x, g), Unsorted(y, g)) && Unsorted(x, g) != Unsorted(y, g);
    TwinsDisagree(rank, Unsorted(x, g), Unsorted(y, g), prev);
    BumpedGeneration(rank, x, prev, status);
    BumpedGeneration(rank, y, prev, status);
  }

  /** Sorted as for the comparison, twins do not both agree with one document. */
  lemma TwinsDisagree(rank: Ranking, u: Doc, v: Doc, prev: Doc)
    requires IsComparisonSort(rank) && DocTwins(u, v) && u != v
    ensures var p := SortedBy(rank, prev);
            !Agree(p, SortedBy(rank, SortedBy(rank, u))) || !Agree(p, SortedBy(rank, SortedBy(rank, v)))
  {
    hide IsComparisonSort;
    SortedByTwins(rank, u, v);
    var d1, d2 := SortedBy(rank, u), SortedBy(rank, v);
    SortedByTwins(rank, d1, d2);
    assert SortedBy(rank, d1).generation == SortedBy(rank, d2).generation;
    AgreeBoth(SortedBy(rank, prev), SortedBy(rank, d1), SortedBy(rank, d2));
  }

  lemma BumpedGeneration(rank: Ranking, x: Inputs, prev: Doc, status: int)
    requires IsComparisonSort(rank) && 1 <= prev.generation < MAX_INT64
    ensures var n := SortedBy(rank, SortedBy(rank, Unsorted(x, StartGeneration(Some(prev), status))));
            !Agree(SortedBy(rank, prev), n) ==> WrittenBy(rank, x, Some(prev), status).generation == prev.generation + 1
  {
    var n := SortedBy(rank, SortedBy(rank, Unsorted(x, StartGeneration(Some(prev), status))));
    KeepsGeneration(rank, n.(generation := prev.generation + 1));
    hide IsComparisonSort, SortedBy, Unsorted, Agree;
  }

  lemma AgreeBoth(p: Doc, x: Doc, y: Doc)
    requires x.generation == y.generation
    ensures Agree(p, x) && Agree(p, y) ==> x == y
  {
    assert x == x.(generation := 0).(generation := x.generation);
    assert y == y.(generation := 0).(generation := y.generation);
  }

  lemma KeepsGeneration(rank: Ranking, d: Doc)
    requires IsComparisonSort(rank)
    ensures SortedBy(rank, d).generation == d.generation && SortedBy(rank, d).apiVersion == d.apiVersion && SortedBy(rank, d).kind == d.kind
  {
  }

  /** Some list order makes a pass bump the generation, whatever is stored. */
  lemma SomeOrderBumps(rank: Ranking, r: Router, y: Inputs, prev: Doc, status: int) returns (order: Inputs)
    requires IsComparisonSort(rank) && 1 <= prev.generation < MAX_INT64 && prev.apiVersion != "" && prev.kind != ""
    requires SameContents(r.inputs, y)
    requires forall g: int :: DocTwins(Unsorted(r.inputs, g), Unsorted(y, g)) && Unsorted(r.inputs, g) != Unsorted(y, g)
    ensures SameContents(r.inputs, order)
    ensures StoresBy(rank, order, Json(WireOf(prev)), status) == Json(WireOf(WrittenBy(rank, order, Some(prev), status)))
    ensures WrittenBy(rank, order, Some(prev), status).generation == prev.generation + 1
    ensures WrittenBy(rank, order, Some(prev), status).apiVersion != "" && WrittenBy(rank, order, Some(prev), status).kind != ""
  {
    SameSelf(r.inputs);
    OneDisagrees(rank, r.inputs, y, prev, status);
    ParseMarshal(prev);
    order := if WrittenBy(rank, r.inputs, Some(prev), status).generation == prev.generation + 1 then r.inputs else y;
    WrittenIsPolicy(rank, order, prev, status);
    hide IsComparisonSort, SameContents, WrittenBy, Unsorted, DocTwins, WireOf;
  }

  lemma WrittenIsPolicy(rank: Ranking, x: Inputs, prev: Doc, status: int)
    requires IsComparisonSort(rank)
    ensures WrittenBy(rank, x, Some(prev), status).apiVersion == POLICY_API_VERSION
    ensures WrittenBy(rank, x, Some(prev), status).kind == POLICY_KIND
  {
    hide SortBy, LeasesOf, FloatingIPsOf, ForwardsOf;
  }

  /**
   * Under any fixed sort, two entries that tie let list order race the generation:
   * from any stored document two passes over one cluster state, each with its own
   * list order, write twice, the generation rising each time.
   */
  lemma TiesRace(rank: Ranking, r: Router, prev: Doc, cm: ConfigMap, owners: seq<OwnerRef>)
    returns (w: World, events: seq<Event>, w': World)
    requires IsComparisonSort(rank) && r.ref.controller && !KeysDetermine(Unsorted(r.inputs, 1))
    requires prev.apiVersion != "" && prev.kind != "" && 1 <= prev.generation < MAX_INT64 - 1
    requires cm.policy == Json(WireOf(prev)) && WithController(cm.owners, r.ref) == Some(owners)
    ensures w == World([Some(cm)], [prev.generation], Idle, 0) && SortedRun(rank, r, w, events, w') && !ChangesOnce(w')
  {
    var g := prev.generation;
    var o1, t1, o2, t2 := TwoBumps(rank, r, prev);
    hide IsComparisonSort, SameContents, StoresBy, Stores, Unsorted, WireOf, KeysDetermine, WithController;
    w := World([Some(cm)], [g], Idle, 0);
    FirstPossible(r, w, cm, g, o1, Some(0), t1);
    SecondPossible(r, w, cm, g, t1, owners, o2, Some(1), t2);
    hide Possible, Replaced;
    w' := TwoPasses(r, w, cm, owners, o1, Some(0), g, t1, o2, Some(1), g, t2);
    events := Pass(o1, Some(0), g, 0, t1) + Pass(o2, Some(1), g, 1, t2);
    hide FullRun, ChangesOnce, DataOf;
    PassesSort(rank, r, w, cm, owners, o1, g, t1, o2, t2);
  }

  /** Two list orders, the second bumping what the first has stored. */
  lemma TwoBumps(rank: Ranking, r: Router, prev: Doc) returns (o1: Inputs, t1: PolicyText, o2: Inputs, t2: PolicyText)
    requires IsComparisonSort(rank) && !KeysDetermine(Unsorted(r.inputs, 1))
    requires prev.apiVersion != "" && prev.kind != "" && 1 <= prev.generation < MAX_INT64 - 1
    ensures SameContents(r.inputs, o1) && SameContents(r.inputs, o2)
    ensures var g, t0 := prev.generation, Json(WireOf(prev));
            && t1 == StoresBy(rank, o1, t0, g) && Stores(o1, t0, g, t1)
            && t2 == StoresBy(rank, o2, t1, g) && Stores(o2, t1, g, t2)
            && t0 != t1 && t1 != t2
  {
    var g := prev.generation;
    var y := TwinInputs(r.inputs);
    hide IsComparisonSort, SameContents, WrittenBy, Stores, Unsorted, DocTwins, KeysDetermine, StoresBy;
    o1 := SomeOrderBumps(rank, r, y, prev, g);
    var e1 := WrittenBy(rank, o1, Some(prev), g);
    t1 := StoresBy(rank, o1, Json(WireOf(prev)), g);
    o2 := SomeOrderBumps(rank, r, y, e1, g);
    t2 := StoresBy(rank, o2, t1, g);
    StoresByStores(rank, o1, Json(WireOf(prev)), g);
    StoresByStores(rank, o2, t1, g);
  }

  lemma PassesSort(rank: Ranking, r: Router, w: World, cm: ConfigMap, owners: seq<OwnerRef>,
                   o1: Inputs, g: int, t1: PolicyText, o2: Inputs, t2: PolicyText)
    requires IsComparisonSort(rank) && w == World([Some(cm)], [g], Idle, 0)
    requires WithController(cm.owners, r.ref) == Some(owners) && cm.policy != t1
    requires t1 == StoresBy(rank, o1, cm.policy, g) && t2 == StoresBy(rank, o2, t1, g)
    ensures var events := Pass(o1, Some(0), g, 0, t1) + Pass(o2, Some(1), g, 1, t2);
            Sighted(events) && SortsBy(rank, r, w, events)
  {
    hide IsComparisonSort, StoresBy, WithController;
    var events := Pass(o1, Some(0), g, 0, t1) + Pass(o2, Some(1), g, 1, t2);
    var w1, w2 := w.(phase := Rendered(t1)), w.(phase := Fetched(t1, 0));
    var w3 := Replaced(r, cm, t1, owners)(w);
    var w4, w5 := w3.(phase := Rendered(t2)), w3.(phase := Fetched(t2, 1));
    assert Step(r, w, events[0]) == w1 && Step(r, w1, events[1]) == w2 && Step(r, w2, events[2]) == w3;
    assert Step(r, w3, events[3]) == w4 && Step(r, w4, events[4]) == w5;
    StepValid(r, w5, events[5]);
    TailSorts(rank, r, w5, events);
    assert ReadText(w3, Some(1)) == t1;
    hide Step;
    assert events[5..][1..] == [];
    assert SortsBy(rank, r, w4, events[4..]) by { assert events[4..][0] == events[4] && events[4..][1..] == events[5..]; }
    assert SortsBy(rank, r, w3, events[3..]) by { assert events[3..][0] == events[3] && events[3..][1..] == events[4..]; }
    assert SortsBy(rank, r, w2, events[2..]) by { assert events[2..][0] == events[2] && events[2..][1..] == events[3..]; }
    assert SortsBy(rank, r, w1, events[1..]) by { assert events[1..][0] == events[1] && events[1..][1..] == events[2..]; }
  }

  lemma TailSorts(rank: Ranking, r: Router, w: World, events: seq<Event>)
    requires IsComparisonSort(rank) && w.Valid() && |events| == 6 && events[5].Commit?
    ensures SortsBy(rank, r, w, events[5..])
  {
    hide Step, StoresBy, IsComparisonSort;
    assert events[5..][1..] == [] && events[5..][0] == events[5];
    StepValid(r, w, events[5]);
  }

  /**
   * For every fixed sort: every run from every start, whose renders have read what is
   * stored, changes the data at most once exactly when keys determine entries.
   */
  lemma FixpointExactly(rank: Ranking, r: Router)
    requires IsComparisonSort(rank) && r.ref.controller
    ensures (forall w, events, w' :: SortedRun(rank, r, w, events, w') ==> ChangesOnce(w'))
       <==> KeysDetermine(Unsorted(r.inputs, 1))
  {
    hide KeysDetermine, Unsorted, ChangesOnce, IsComparisonSort;
    if KeysDetermine(Unsorted(r.inputs, 1)) {
      forall w, events, w' | SortedRun(rank, r, w, events, w') ensures ChangesOnce(w') {
        DataChangesAtMostOnce(r, w, events, w');
      }
    } else {
      var prev := Doc(POLICY_API_VERSION, POLICY_KIND, "", "", 1, [], None, [], [], []);
      var cm := ConfigMap(map[], map[], Json(WireOf(prev)), "", []);
      var w, events, w' := TiesRace(rank, r, prev, cm, [r.ref]);
    }
  }
}
