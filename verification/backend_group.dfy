// Backend group membership on VMs: stamping the group label on the members, rolling
// back a partial stamp, and moving from one membership to the next.
//
// An API call may fail without effect, and a write may land while its reply is lost.
// Failures are a schedule that the calls consume, with the text each error carries, so
// every statement holds for every pattern of them.
module BackendGroup {
  import opened Text
  import opened ErrorText

  const GROUP_LABEL := "kmc.ianunruh.com/backend-group"

  type Labels = map<string, string>

  /** The two label maps the group label is written to. */
  datatype Vm = Vm(labels: Labels, templateLabels: Labels)

  /** A failing call throws an error that formats to `text`; an unheard one has its effect first. */
  datatype Fault = Fine | Failing(text: string) | Unheard(text: string)

  /** One namespace's VMs, and what is to go wrong with the calls to come. */
  datatype Api = Api(vms: map<string, Vm>, faults: seq<Fault>)
  {
    function NextFault(): Fault {
      if faults == [] then Fine else faults[0]
    }

    function Consumed(): Api {
      Api(vms, if faults == [] then [] else faults[1..])
    }
  }

  datatype Fetched = Got(vm: Vm) | Missed(error: string)

  /** Get one VM. */
  function Fetch(api: Api, name: string): (Api, Fetched) {
    (api.Consumed(),
     match api.NextFault()
     case Fine => if name in api.vms then Got(api.vms[name]) else Missed(MissingText(name))
     case fault => Missed(fault.text))
  }

  /** Replace one VM. */
  function Replace(api: Api, name: string, vm: Vm): (Api, Option<string>) {
    match api.NextFault()
    case Failing(text) => (api.Consumed(), Some(text))
    case Unheard(text) =>
      (if name in api.vms then api.Consumed().(vms := api.vms[name := vm]) else api.Consumed(), Some(text))
    case Fine =>
      if name in api.vms then (api.Consumed().(vms := api.vms[name := vm]), None)
      else (api.Consumed(), Some(MissingText(name)))
  }

  // ---------------------------------------------------------------- one VM

  /** The VM with the group label set, or cleared for None and for an empty id. */
  function Marked(vm: Vm, groupId: Option<string>): Vm {
    if groupId.Some? && groupId.value != ""
    then Vm(vm.labels[GROUP_LABEL := groupId.value], vm.templateLabels[GROUP_LABEL := groupId.value])
    else Vm(vm.labels - {GROUP_LABEL}, vm.templateLabels - {GROUP_LABEL})
  }

  function Attempt(api: Api, name: string, groupId: Option<string>): (Api, Option<string>) {
    var (api1, fetched) := Fetch(api, name);
    match fetched
    case Missed(e) => (api1, Some(e))
    case Got(vm) => Replace(api1, name, Marked(vm, groupId))
  }

  function WrapError(name: string, error: Option<string>): Option<string> {
    match error case None => None case Some(text) => Some(Wrapped(name, text))
  }

  /** What reads as a conflict is retried once. */
  function SetGroup(api: Api, name: string, groupId: Option<string>): (Api, Option<string>) {
    var (api1, error) := Attempt(api, name, groupId);
    if error.Some? && IsConflict(error.value) then
      var (api2, again) := Attempt(api1, name, groupId);
      (api2, WrapError(name, again))
    else (api1, WrapError(name, error))
  }

  /** Stamps names in order up to the first failure; also how many were stamped. */
  function StampAll(api: Api, groupId: string, names: seq<string>): (Api, Option<string>, nat)
    decreases names
  {
    if names == [] then (api, None, 0)
    else
      var (api1, fetched) := Fetch(api, names[0]);
      if fetched.Missed? then (api1, Some(fetched.error), 0)
      else
        var (api2, error) := SetGroup(api1, names[0], Some(groupId));
        if error.Some? then (api2, error, 0)
        else
          var (api3, e, n) := StampAll(api2, groupId, names[1..]);
          (api3, e, n + 1)
  }

  /** Best effort: errors are ignored. */
  function Rollback(api: Api, names: seq<string>): Api
    decreases names
  {
    if names == [] then api else Rollback(SetGroup(api, names[0], None).0, names[1..])
  }

  lemma {:induction false} StampCount(api: Api, groupId: string, names: seq<string>)
    ensures StampAll(api, groupId, names).2 <= |names|
    ensures StampAll(api, groupId, names).1 == None <==> StampAll(api, groupId, names).2 == |names|
    decreases names
  {
    hide Fetch, SetGroup;
    if names != [] {
      StampCount(SetGroup(Fetch(api, names[0]).0, names[0], Some(groupId)).0, groupId, names[1..]);
    }
  }

  function Stamp(api: Api, groupId: string, names: seq<string>): (Api, Option<string>) {
    StampCount(api, groupId, names);
    var (api1, error, n) := StampAll(api, groupId, names);
    if error == None then (api1, None) else (Rollback(api1, names[..n]), error)
  }

  /** "Not found" is decided by searching the error's text. */
  function Unstamp(api: Api, names: seq<string>): (Api, Option<string>)
    decreases names
  {
    if names == [] then (api, None)
    else
      var (api1, error) := SetGroup(api, names[0], None);
      if error.Some? && !IsNotFound(error.value) then (api1, error)
      else Unstamp(api1, names[1..])
  }

  // ---------------------------------------------------------------- an update

  datatype Membership =
    | SingleVm(vmName: string)
    | MatchLabels(matchLabels: Labels)
    | Group(groupId: string, vmNames: seq<string>)
    | Unknown

  function Minus(a: seq<string>, b: seq<string>): seq<string> {
    if a == [] then [] else Minus(a[..|a| - 1], b) + (if a[|a| - 1] in b then [] else [a[|a| - 1]])
  }

  function Common(a: seq<string>, b: seq<string>): seq<string> {
    if a == [] then [] else Common(a[..|a| - 1], b) + (if a[|a| - 1] in b then [a[|a| - 1]] else [])
  }

  /** The VM part of `updateBackend`. */
  function UpdateVms(api: Api, prev: Membership, next: Membership): (Api, Option<string>) {
    if next.Group? then
      var prevNames := if prev.Group? then prev.vmNames else [];
      var toAdd, toRemove, keep := Minus(next.vmNames, prevNames), Minus(prevNames, next.vmNames), Common(next.vmNames, prevNames);
      var (api1, e1) := Stamp(api, next.groupId, toAdd);
      if e1.Some? then (api1, e1)
      else
        var (api2, e2) := Unstamp(api1, toRemove);
        if e2.Some? then (api2, e2)
        else if prev.Group? && prev.groupId != next.groupId then Stamp(api2, next.groupId, keep)
        else (api2, None)
    else if prev.Group? then Unstamp(api, prev.vmNames)
    else (api, None)
  }

  // ---------------------------------------------------------------- the code

  class VmClient {
    var api: Api

    method FetchVm(name: string) returns (r: Fetched)
      modifies this
      ensures (api, r) == Fetch(old(api), name)
    {
      var out := Fetch(api, name);
      api, r := out.0, out.1;
    }

    method AttemptLabel(name: string, groupId: Option<string>) returns (error: Option<string>)
      modifies this
      ensures (api, error) == Attempt(old(api), name, groupId)
    {
      var existing := FetchVm(name);
      if existing.Missed? {
        return Some(existing.error);
      }
      var labels, template := existing.vm.labels, existing.vm.templateLabels;
      if groupId.Some? && groupId.value != "" {
        labels := labels[GROUP_LABEL := groupId.value];
        template := template[GROUP_LABEL := groupId.value];
      } else {
        labels := labels - {GROUP_LABEL};
        template := template - {GROUP_LABEL};
      }
      var out := Replace(api, name, Vm(labels, template));
      api, error := out.0, out.1;
    }

    method SetBackendGroupLabel(name: string, groupId: Option<string>) returns (error: Option<string>)
      modifies this
      ensures (api, error) == SetGroup(old(api), name, groupId)
    {
      hide Attempt;
      error := AttemptLabel(name, groupId);
      if error.Some? && IsConflict(error.value) {
        error := AttemptLabel(name, groupId);
      }
      if error.Some? {
        error := Some(Wrapped(name, error.value));
      }
    }

    method StampBackendGroup(groupId: string, names: seq<string>) returns (error: Option<string>)
      modifies this
      ensures (api, error) == Stamp(old(api), groupId, names)
    {
      hide Fetch, SetGroup;
      var stamped: seq<string> := [];
      error := None;
      ghost var start := api;
      for i := 0 to |names|
        invariant error == None && stamped == names[..i]
        invariant StampAll(start, groupId, names).0 == StampAll(api, groupId, names[i..]).0
        invariant StampAll(start, groupId, names).1 == StampAll(api, groupId, names[i..]).1
        invariant StampAll(start, groupId, names).2 == i + StampAll(api, groupId, names[i..]).2
      {
        assert names[i..][1..] == names[i + 1..] && names[i..][0] == names[i];
        var existing := FetchVm(names[i]);
        if existing.Missed? {
          error := Some(existing.error);
          break;
        }
        error := SetBackendGroupLabel(names[i], Some(groupId));
        if error.Some? {
          break;
        }
        stamped := stamped + [names[i]];
      }
      if error.Some? {
        RollBack(stamped);
      } else {
        assert names[|names|..] == [];
      }
    }

    method RollBack(stamped: seq<string>)
      modifies this
      ensures api == Rollback(old(api), stamped)
    {
      hide SetGroup;
      ghost var start := api;
      for i := 0 to |stamped|
        invariant Rollback(start, stamped) == Rollback(api, stamped[i..])
      {
        assert stamped[i..][1..] == stamped[i + 1..] && stamped[i..][0] == stamped[i];
        var ignored := SetBackendGroupLabel(stamped[i], None);
      }
    }

    method UnstampBackendGroup(names: seq<string>) returns (error: Option<string>)
      modifies this
      ensures (api, error) == Unstamp(old(api), names)
    {
      hide SetGroup;
      ghost var start := api;
      for i := 0 to |names|
        invariant Unstamp(start, names) == Unstamp(api, names[i..])
      {
        assert names[i..][1..] == names[i + 1..] && names[i..][0] == names[i];
        error := SetBackendGroupLabel(names[i], None);
        if error.Some? && !IsNotFound(error.value) {
          return;
        }
      }
      return None;
    }

    method UpdateBackendVms(prev: Membership, next: Membership) returns (error: Option<string>)
      modifies this
      ensures (api, error) == UpdateVms(old(api), prev, next)
    {
      hide Stamp, Unstamp;
      if next.Group? {
        var prevNames := if prev.Group? then prev.vmNames else [];
        var toAdd := Filter(next.vmNames, prevNames, false);
        var toRemove := Filter(prevNames, next.vmNames, false);
        if |toAdd| > 0 {
          error := StampBackendGroup(next.groupId, toAdd);
          if error.Some? { return; }
        }
        StampNothing(api, next.groupId);
        if |toRemove| > 0 {
          error := UnstampBackendGroup(toRemove);
          if error.Some? { return; }
        }
        UnstampNothing(api);
        var keep := Filter(next.vmNames, prevNames, true);
        if |keep| > 0 && prev.Group? && prev.groupId != next.groupId {
          error := StampBackendGroup(next.groupId, keep);
          return;
        }
        StampNothing(api, next.groupId);
        return None;
      } else if prev.Group? {
        error := UnstampBackendGroup(prev.vmNames);
        return;
      }
      return None;
    }
  }

  lemma StampNothing(api: Api, groupId: string)
    ensures Stamp(api, groupId, []) == (api, None)
  {
  }

  lemma UnstampNothing(api: Api)
    ensures Unstamp(api, []) == (api, None)
  {
  }

  /** `names.filter(n => other.includes(n))`, or its complement. */
  method Filter(names: seq<string>, other: seq<string>, included: bool) returns (out: seq<string>)
    ensures out == if included then Common(names, other) else Minus(names, other)
  {
    out := [];
    for i := 0 to |names|
      invariant out == if included then Common(names[..i], other) else Minus(names[..i], other)
    {
      assert names[..i + 1][..i] == names[..i];
      if (names[i] in other) == included {
        out := out + [names[i]];
      }
    }
    assert names[..|names|] == names;
  }

  // ---------------------------------------------------------------- effects

  /** The failures still to come are among the given ones. */
  predicate Within(api: Api, faults: seq<Fault>) {
    forall f :: f in api.faults ==> f in faults
  }

  /** An error of a call on an existing VM is one of the scheduled ones. */
  predicate Scheduled(error: Option<string>, faults: seq<Fault>) {
    error.Some? ==> exists f :: f in faults && !f.Fine? && f.text == error.value
  }

  lemma ConsumedWithin(api: Api, faults: seq<Fault>)
    requires Within(api, faults)
    ensures Within(api.Consumed(), faults)
    ensures !api.NextFault().Fine? ==> api.NextFault() in faults
  {
  }

  /** Whether the write of an attempt has its effect, heard of or not. */
  predicate AttemptLands(api: Api, name: string) {
    Fetch(api, name).1.Got? && !Fetch(api, name).0.NextFault().Failing?
  }

  predicate SetLands(api: Api, name: string, groupId: Option<string>) {
    var (api1, error) := Attempt(api, name, groupId);
    AttemptLands(api, name) || (error.Some? && IsConflict(error.value) && AttemptLands(api1, name))
  }

  /** One attempt changes that VM alone, and exactly when its write lands. */
  lemma AttemptEffect(api: Api, name: string, groupId: Option<string>)
    ensures var (after, error) := Attempt(api, name, groupId);
            && (AttemptLands(api, name) ==> name in api.vms)
            && (error == None ==> AttemptLands(api, name))
            && after.vms == (if AttemptLands(api, name) then api.vms[name := Marked(api.vms[name], groupId)] else api.vms)
            && (AllFine(api) ==> AllFine(after) && (name in api.vms ==> error == None))
            && Within(after, api.faults) && (name in api.vms ==> Scheduled(error, api.faults))
  {
    hide Marked, MissingText;
    ConsumedFine(api);
    ConsumedFine(api.Consumed());
    ConsumedWithin(api, api.faults);
    ConsumedWithin(api.Consumed(), api.faults);
  }

  lemma WithinTrans(api: Api, middle: seq<Fault>, faults: seq<Fault>)
    requires Within(api, middle) && forall f :: f in middle ==> f in faults
    ensures Within(api, faults)
  {
  }

  lemma ScheduledLater(error: Option<string>, later: seq<Fault>, faults: seq<Fault>)
    requires Scheduled(error, later) && forall f :: f in later ==> f in faults
    ensures Scheduled(error, faults)
  {
  }

  /** Setting the label changes that VM alone, and exactly when one of its writes lands. */
  lemma SetGroupEffect(api: Api, name: string, groupId: Option<string>)
    ensures SetGroup(api, name, groupId).1 == None ==> SetLands(api, name, groupId)
    ensures SetLands(api, name, groupId) ==> name in api.vms
    ensures SetGroup(api, name, groupId).0.vms
         == if SetLands(api, name, groupId) then api.vms[name := Marked(api.vms[name], groupId)] else api.vms
    ensures AllFine(api) ==> AllFine(SetGroup(api, name, groupId).0)
    ensures AllFine(api) && name in api.vms ==> SetGroup(api, name, groupId).1 == None
    ensures Within(SetGroup(api, name, groupId).0, api.faults)
    ensures name in api.vms && SetGroup(api, name, groupId).1.Some? ==>
              exists f :: f in api.faults && !f.Fine? && SetGroup(api, name, groupId).1 == Some(Wrapped(name, f.text))
  {
    SetGroupFaults(api, name, groupId);
    AttemptEffect(api, name, groupId);
    var (api1, error) := Attempt(api, name, groupId);
    AttemptEffect(api1, name, groupId);
    if name in api.vms {
      MarkedTwice(api.vms[name], groupId, groupId);
    }
    hide Attempt, AttemptLands, Marked, AllFine, IsConflict, Wrapped, Within, Scheduled;
  }

  /** It consumes faults only, and an error it reports is one of theirs. */
  lemma SetGroupFaults(api: Api, name: string, groupId: Option<string>)
    ensures Within(SetGroup(api, name, groupId).0, api.faults)
    ensures name in api.vms && SetGroup(api, name, groupId).1.Some? ==>
              exists f :: f in api.faults && !f.Fine? && SetGroup(api, name, groupId).1 == Some(Wrapped(name, f.text))
  {
    AttemptEffect(api, name, groupId);
    var (api1, error) := Attempt(api, name, groupId);
    AttemptEffect(api1, name, groupId);
    WithinTrans(Attempt(api1, name, groupId).0, api1.faults, api.faults);
    if name in api.vms {
      ScheduledLater(Attempt(api1, name, groupId).1, api1.faults, api.faults);
    }
    hide Attempt, AttemptLands, Marked, AllFine, IsConflict, Wrapped;
  }

  predicate AllFine(api: Api) {
    forall i :: 0 <= i < |api.faults| ==> api.faults[i] == Fine
  }

  lemma ConsumedFine(api: Api)
    ensures AllFine(api) ==> AllFine(api.Consumed()) && api.NextFault() == Fine
  {
  }

  /** Every VM of the list marked, the others left alone. */
  function Overlay(vms: map<string, Vm>, touched: seq<string>, groupId: Option<string>): map<string, Vm> {
    map v | v in vms :: if v in touched then Marked(vms[v], groupId) else vms[v]
  }

  lemma MarkedTwice(vm: Vm, first: Option<string>, second: Option<string>)
    ensures Marked(Marked(vm, first), second) == Marked(vm, second)
  {
  }

  lemma OverlayStep(vms: map<string, Vm>, name: string, rest: seq<string>, groupId: Option<string>)
    requires name in vms
    ensures Overlay(vms[name := Marked(vms[name], groupId)], rest, groupId) == Overlay(vms, [name] + rest, groupId)
  {
    MarkedTwice(vms[name], groupId, groupId);
    hide Marked;
  }

  lemma OverlayNothing(vms: map<string, Vm>, groupId: Option<string>)
    ensures Overlay(vms, [], groupId) == vms
  {
  }

  /** The first n names exist, and marking them is all that happened. */
  predicate Marks(before: map<string, Vm>, after: map<string, Vm>, names: seq<string>, n: nat, groupId: string) {
    && n <= |names|
    && after == Overlay(before, names[..n], Some(groupId))
    && forall v :: v in names[..n] ==> v in before
  }

  lemma MarksNothing(vms: map<string, Vm>, names: seq<string>, groupId: string)
    ensures Marks(vms, vms, names, 0, groupId)
  {
    OverlayNothing(vms, Some(groupId));
    assert names[..0] == [];
  }

  lemma MarksStep(before: map<string, Vm>, after: map<string, Vm>, names: seq<string>, n: nat, groupId: string)
    requires names != [] && names[0] in before
    requires Marks(before[names[0] := Marked(before[names[0]], Some(groupId))], after, names[1..], n, groupId)
    ensures Marks(before, after, names, n + 1, groupId)
  {
    hide Marked;
    assert names[..n + 1] == [names[0]] + names[1..][..n];
    OverlayStep(before, names[0], names[1..][..n], Some(groupId));
  }

  /** The run stops at a name whose stamp is reported as failed and has landed all the same. */
  predicate StopsLanded(api: Api, groupId: string, names: seq<string>)
    decreases names
  {
    names != [] &&
    (var (api1, fetched) := Fetch(api, names[0]);
     fetched.Got? &&
     if SetGroup(api1, names[0], Some(groupId)).1.Some? then SetLands(api1, names[0], Some(groupId))
     else StopsLanded(SetGroup(api1, names[0], Some(groupId)).0, groupId, names[1..]))
  }

  /** The names that carry the label after a stamp run: those counted, and one that landed unheard. */
  function Reached(api: Api, groupId: string, names: seq<string>): nat {
    StampAll(api, groupId, names).2 + if StopsLanded(api, groupId, names) then 1 else 0
  }

  /** The first name of a run: refused, landed unheard, or stamped with the rest to follow. */
  lemma FirstOfRun(api: Api, groupId: string, names: seq<string>)
    requires names != []
    ensures var api1, fetched := Fetch(api, names[0]).0, Fetch(api, names[0]).1;
            var (api2, error) := SetGroup(api1, names[0], Some(groupId));
            var landed := SetLands(api1, names[0], Some(groupId));
            && (landed ==> names[0] in api.vms && api2.vms == api.vms[names[0] := Marked(api.vms[names[0]], Some(groupId))])
            && (!landed ==> api2.vms == api.vms && error != None)
            && api1.vms == api.vms
            && (fetched.Missed? ==> StampAll(api, groupId, names).0 == api1 && Reached(api, groupId, names) == 0)
            && (fetched.Got? && error != None ==>
                  StampAll(api, groupId, names).0 == api2 && Reached(api, groupId, names) == if landed then 1 else 0)
            && (fetched.Got? && error == None ==>
                  && StampAll(api, groupId, names).0 == StampAll(api2, groupId, names[1..]).0
                  && Reached(api, groupId, names) == Reached(api2, groupId, names[1..]) + 1)
  {
    var api1 := Fetch(api, names[0]).0;
    SetGroupEffect(api1, names[0], Some(groupId));
    assert api1.vms == api.vms;
    hide Fetch, SetGroup, SetLands, Marked, AllFine;
  }

  /**
   * A stamp run marks the names it counted and the next one when its stamp has landed
   * unheard; these exist, and every other VM is left alone.
   */
  lemma {:induction false} StampAllEffect(api: Api, groupId: string, names: seq<string>)
    ensures Marks(api.vms, StampAll(api, groupId, names).0.vms, names, Reached(api, groupId, names), groupId)
    ensures StampAll(api, groupId, names).1 == None ==> StampAll(api, groupId, names).2 == |names| == Reached(api, groupId, names)
    decreases names
  {
    StampCount(api, groupId, names);
    MarksNothing(api.vms, names, groupId);
    if names != [] {
      FirstOfRun(api, groupId, names);
      var (api1, fetched) := Fetch(api, names[0]);
      var (api2, error) := SetGroup(api1, names[0], Some(groupId));
      hide Fetch, SetGroup, SetLands, Marked, Marks, StampAll, Reached;
      if fetched.Got? && error == None {
        StampAllEffect(api2, groupId, names[1..]);
        MarksStep(api.vms, StampAll(api2, groupId, names[1..]).0.vms, names, Reached(api2, groupId, names[1..]), groupId);
      } else if fetched.Got? && SetLands(api1, names[0], Some(groupId)) {
        MarksNothing(api2.vms, names[1..], groupId);
        MarksStep(api.vms, api2.vms, names, 0, groupId);
      }
      ReachedWhenDone(api, groupId, names);
    } else {
      assert Reached(api, groupId, names) == 0;
    }
  }

  lemma {:induction false} ReachedWhenDone(api: Api, groupId: string, names: seq<string>)
    ensures StampAll(api, groupId, names).1 == None ==> !StopsLanded(api, groupId, names)
    ensures StampAll(api, groupId, names).1 == None ==> StampAll(api, groupId, names).2 == |names| == Reached(api, groupId, names)
    decreases names
  {
    StampCount(api, groupId, names);
    hide Fetch, SetGroup, SetLands;
    if names != [] {
      ReachedWhenDone(SetGroup(Fetch(api, names[0]).0, names[0], Some(groupId)).0, groupId, names[1..]);
    }
  }

  lemma {:induction false} CleanRollback(api: Api, names: seq<string>)
    requires AllFine(api) && forall v :: v in names ==> v in api.vms
    ensures Rollback(api, names).vms == Overlay(api.vms, names, None)
    decreases names
  {
    OverlayNothing(api.vms, None);
    if names != [] {
      SetGroupEffect(api, names[0], None);
      hide SetGroup, Marked, Overlay;
      CleanRollback(SetGroup(api, names[0], None).0, names[1..]);
      OverlayStep(api.vms, names[0], names[1..], None);
      assert names == [names[0]] + names[1..];
    }
  }

  /** When every call goes through, stamping existing VMs succeeds. */
  lemma {:induction false} CleanStamp(api: Api, groupId: string, names: seq<string>)
    requires AllFine(api) && forall v :: v in names ==> v in api.vms
    ensures StampAll(api, groupId, names).1 == None && AllFine(StampAll(api, groupId, names).0)
    decreases names
  {
    if names != [] {
      ConsumedFine(api);
      var api1 := Fetch(api, names[0]).0;
      assert Fetch(api, names[0]).1.Got? && api1 == api.Consumed();
      SetGroupEffect(api1, names[0], Some(groupId));
      hide SetGroup, AllFine, Fetch, Marked;
      CleanStamp(SetGroup(api1, names[0], Some(groupId)).0, groupId, names[1..]);
    }
  }

  /** When every call goes through, unstamping existing VMs clears them all. */
  lemma {:induction false} CleanUnstamp(api: Api, names: seq<string>)
    requires AllFine(api) && forall v :: v in names ==> v in api.vms
    ensures Unstamp(api, names).0.vms == Overlay(api.vms, names, None)
    decreases names
  {
    OverlayNothing(api.vms, None);
    if names != [] {
      SetGroupEffect(api, names[0], None);
      hide SetGroup, Marked, Overlay, IsNotFound, AllFine;
      CleanUnstamp(SetGroup(api, names[0], None).0, names[1..]);
      OverlayStep(api.vms, names[0], names[1..], None);
      assert names == [names[0]] + names[1..];
    }
  }

  predicate Ungrouped(vm: Vm) {
    GROUP_LABEL !in vm.labels && GROUP_LABEL !in vm.templateLabels
  }

  predicate InGroup(vm: Vm, groupId: string) {
    && GROUP_LABEL in vm.labels && vm.labels[GROUP_LABEL] == groupId
    && GROUP_LABEL in vm.templateLabels && vm.templateLabels[GROUP_LABEL] == groupId
  }

  lemma MarkedMeaning(vm: Vm, groupId: string)
    ensures Ungrouped(Marked(vm, None))
    ensures Marked(vm, None) == vm <==> Ungrouped(vm)
    ensures groupId != "" ==> InGroup(Marked(vm, Some(groupId)), groupId)
    ensures Marked(vm, Some(groupId)).labels - {GROUP_LABEL} == vm.labels - {GROUP_LABEL}
    ensures Marked(vm, Some(groupId)).templateLabels - {GROUP_LABEL} == vm.templateLabels - {GROUP_LABEL}
    ensures Marked(vm, None).labels == vm.labels - {GROUP_LABEL}
    ensures Marked(vm, None).templateLabels == vm.templateLabels - {GROUP_LABEL}
  {
    if Ungrouped(vm) {
      assert vm.labels - {GROUP_LABEL} == vm.labels && vm.templateLabels - {GROUP_LABEL} == vm.templateLabels;
    }
  }

  /** Two requests that go through, for the read and the write of one attempt. */
  predicate TwoFine(faults: seq<Fault>) {
    (|faults| > 0 ==> faults[0].Fine?) && (|faults| > 1 ==> faults[1].Fine?)
  }

  /**
   * A write refused once is tried a second time, from a fresh read, exactly when its
   * error reads as a conflict; a second refusal is final, whatever it says.
   */
  lemma ConflictRetriedOnce(api: Api, name: string, groupId: string, text: string, rest: seq<Fault>)
    requires name in api.vms && groupId != "" && api.faults == [Fine, Failing(text)] + rest
    ensures var (after, error) := SetGroup(api, name, Some(groupId));
            && after.vms - {name} == api.vms - {name} && name in after.vms
            && (!IsConflict(text) ==> error == Some(Wrapped(name, text)) && after == Api(api.vms, rest))
            && (IsConflict(text) && TwoFine(rest) ==> error == None && InGroup(after.vms[name], groupId))
            && (IsConflict(text) && |rest| > 1 && rest[0].Fine? && rest[1].Failing? ==>
                  error == Some(Wrapped(name, rest[1].text)) && after == Api(api.vms, rest[2..]))
  {
    hide IsConflict, Wrapped;
    assert api.Consumed() == Api(api.vms, [Failing(text)] + rest);
    assert api.Consumed().Consumed() == Api(api.vms, rest);
    assert Attempt(api, name, Some(groupId)) == (Api(api.vms, rest), Some(text));
    MarkedMeaning(api.vms[name], groupId);
    if |rest| > 1 {
      assert rest[1..][1..] == rest[2..];
    }
  }

  /** Stamping the VM would change nothing. */
  predicate Carries(vm: Vm, groupId: string) {
    if groupId != "" then InGroup(vm, groupId) else Ungrouped(vm)
  }

  lemma CarriesExactly(vm: Vm, groupId: string)
    ensures Marked(vm, Some(groupId)) == vm <==> Carries(vm, groupId)
  {
    MarkedMeaning(vm, groupId);
    if InGroup(vm, groupId) {
      assert vm.labels[GROUP_LABEL := groupId] == vm.labels && vm.templateLabels[GROUP_LABEL := groupId] == vm.templateLabels;
    }
  }

  /**
   * A failed stamp whose rollback calls go through restores every label map exactly
   * when none of the VMs it had counted carried a group label before, for the rollback
   * clears the label and does not remember it; and the stamp that failed did not land,
   * for the rollback does not reach it, or its VM carried this very id already.
   */
  lemma FailedStampRestoresExactly(api: Api, groupId: string, names: seq<string>)
    requires StampAll(api, groupId, names).1.Some? && AllFine(StampAll(api, groupId, names).0)
    ensures var n, landed := StampAll(api, groupId, names).2, StopsLanded(api, groupId, names);
            && n < |names| && (forall i :: 0 <= i < n ==> names[i] in api.vms) && (landed ==> names[n] in api.vms)
            && (Stamp(api, groupId, names).0.vms == api.vms
                <==> (forall i :: 0 <= i < n ==> Ungrouped(api.vms[names[i]]))
                     && (landed ==> names[n] in names[..n] || Carries(api.vms[names[n]], groupId)))
  {
    StampAllEffect(api, groupId, names);
    StampCount(api, groupId, names);
    var (after, error, n) := StampAll(api, groupId, names);
    var landed := StopsLanded(api, groupId, names);
    var m := Reached(api, groupId, names);
    var touched, counted := names[..m], names[..n];
    CleanRollback(after, counted);
    assert Stamp(api, groupId, names).0.vms == Overlay(Overlay(api.vms, touched, Some(groupId)), counted, None);
    assert m == if landed then n + 1 else n;
    hide StampAll, StopsLanded, Rollback, Stamp, Overlay, Marked, Ungrouped, Carries, AllFine, Marks, Reached;
    TouchedByIndex(api.vms, names, n, landed, groupId);
    RestoredOverlay(api.vms, touched, counted, groupId);
  }

  /** The VMs counted and the one stopped at, by their places in the list. */
  lemma TouchedByIndex(vms: map<string, Vm>, names: seq<string>, n: nat, landed: bool, groupId: string)
    requires n < |names|
    requires var touched := names[..if landed then n + 1 else n]; forall v :: v in touched ==> v in vms
    ensures var touched, counted := names[..if landed then n + 1 else n], names[..n];
            && (forall v :: v in counted ==> v in touched)
            && (forall i :: 0 <= i < n ==> names[i] in vms) && (landed ==> names[n] in vms)
            && (((forall v :: v in counted ==> Ungrouped(vms[v])) && (forall v :: v in touched && v !in counted ==> Carries(vms[v], groupId)))
                <==> (forall i :: 0 <= i < n ==> Ungrouped(vms[names[i]]))
                     && (landed ==> names[n] in names[..n] || Carries(vms[names[n]], groupId)))
  {
    hide Ungrouped, Carries;
    PrefixMembers(names, n);
    PrefixMembers(names, n + 1);
  }

  lemma PrefixMembers(names: seq<string>, n: nat)
    requires n <= |names|
    ensures forall i :: 0 <= i < n ==> names[i] in names[..n]
    ensures forall v :: v in names[..n] ==> exists i :: 0 <= i < n && names[i] == v
    ensures n > 0 ==> forall v :: v in names[..n] <==> v in names[..n - 1] || v == names[n - 1]
  {
    forall i | 0 <= i < n ensures names[i] in names[..n] {
      assert names[i] == names[..n][i];
    }
    if n > 0 {
      assert names[..n] == names[..n - 1] + [names[n - 1]];
    }
  }

  /** Some VMs marked, some of these cleared again: all as before exactly when neither is seen. */
  lemma RestoredOverlay(vms: map<string, Vm>, touched: seq<string>, cleared: seq<string>, groupId: string)
    requires (forall v :: v in touched ==> v in vms) && forall v :: v in cleared ==> v in touched
    ensures Overlay(Overlay(vms, touched, Some(groupId)), cleared, None) == vms
       <==> (forall v :: v in cleared ==> Ungrouped(vms[v])) && (forall v :: v in touched && v !in cleared ==> Carries(vms[v], groupId))
  {
    var final := Overlay(Overlay(vms, touched, Some(groupId)), cleared, None);
    forall v | v in vms
      ensures final[v] == if v in cleared then Marked(vms[v], None) else if v in touched then Marked(vms[v], Some(groupId)) else vms[v] {
      MarkedTwice(vms[v], Some(groupId), None);
    }
    OverlayKeys(vms, touched, cleared, groupId);
    hide Overlay, Marked, Ungrouped, Carries;
    forall v | v in vms
      ensures Marked(vms[v], None) == vms[v] <==> Ungrouped(vms[v])
      ensures Marked(vms[v], Some(groupId)) == vms[v] <==> Carries(vms[v], groupId) {
      MarkedMeaning(vms[v], "");
      CarriesExactly(vms[v], groupId);
    }
  }

  lemma OverlayKeys(vms: map<string, Vm>, touched: seq<string>, cleared: seq<string>, groupId: string)
    ensures Overlay(Overlay(vms, touched, Some(groupId)), cleared, None).Keys == vms.Keys
  {
  }

  /** How many names of the list exist before the first that does not. */
  function Existing(vms: map<string, Vm>, names: seq<string>): nat {
    if names == [] || names[0] !in vms then 0 else 1 + Existing(vms, names[1..])
  }

  /** How many can be stamped by a stamp that fails in the end. */
  function Stampable(vms: map<string, Vm>, names: seq<string>): (n: nat) {
    if names != [] && Existing(vms, names) == |names| then |names| - 1 else Existing(vms, names)
  }

  lemma {:induction false} ExistingMeaning(vms: map<string, Vm>, names: seq<string>)
    ensures Existing(vms, names) <= |names|
    ensures forall i :: 0 <= i < Existing(vms, names) ==> names[i] in vms
    ensures Existing(vms, names) < |names| ==> names[Existing(vms, names)] !in vms
  {
    if names != [] {
      ExistingMeaning(vms, names[1..]);
    }
  }

  /** What is to happen comes after k stamps that go through, of three calls each. */
  function Delayed(k: nat, rest: seq<Fault>): seq<Fault> {
    if k == 0 then rest else [Fine, Fine, Fine] + Delayed(k - 1, rest)
  }

  /** Stamping one VM takes three calls. */
  lemma ThreeCalls(vms: map<string, Vm>, rest: seq<Fault>, name: string, groupId: Option<string>)
    requires name in vms
    ensures var api := Api(vms, [Fine, Fine, Fine] + rest);
            && Fetch(api, name).1.Got?
            && SetGroup(Fetch(api, name).0, name, groupId) == (Api(vms[name := Marked(vms[name], groupId)], rest), None)
  {
    hide Marked;
    assert ([Fine, Fine, Fine] + rest)[1..] == [Fine, Fine] + rest;
    assert ([Fine, Fine] + rest)[1..] == [Fine] + rest;
    assert ([Fine] + rest)[1..] == rest;
    assert Attempt(Api(vms, [Fine, Fine] + rest), name, groupId) == (Api(vms[name := Marked(vms[name], groupId)], rest), None);
  }

  /** The stamp that comes to `rest` stops there: it is refused, or lands with its reply lost. */
  predicate Stops(rest: seq<Fault>, landed: bool) {
    rest == if landed then [Fine, Fine, Unheard("")] else [Failing("")]
  }

  lemma EmptyIsNoConflict()
    ensures !IsConflict("")
  {
    assert ToLower("") == "";
    NothingMentioned("409");
    NothingMentioned("conflict");
  }

  /** The run stops after k stamps, with no failure left for its rollback. */
  predicate StopsAt(api: Api, groupId: string, names: seq<string>, k: nat, landed: bool) {
    && StampAll(api, groupId, names).1.Some? && StampAll(api, groupId, names).2 == k
    && AllFine(StampAll(api, groupId, names).0) && StopsLanded(api, groupId, names) == landed
  }

  lemma StopsHere(vms: map<string, Vm>, groupId: string, names: seq<string>, rest: seq<Fault>, landed: bool)
    requires names != [] && names[0] in vms && Stops(rest, landed)
    ensures StopsAt(Api(vms, rest), groupId, names, 0, landed)
  {
    EmptyIsNoConflict();
    hide Marked, IsConflict, Wrapped;
    if landed {
      assert [Fine, Fine, Unheard("")][1..] == [Fine, Unheard("")];
      assert [Fine, Unheard("")][1..] == [Unheard("")];
      assert [Unheard("")][1..] == [];
      var api1 := Fetch(Api(vms, rest), names[0]).0;
      assert api1 == Api(vms, [Fine, Unheard("")]);
      assert Attempt(api1, names[0], Some(groupId)).1 == Some("") && AttemptLands(api1, names[0]);
      assert SetGroup(api1, names[0], Some(groupId)) == (Api(vms[names[0] := Marked(vms[names[0]], Some(groupId))], []), Some(Wrapped(names[0], "")));
    } else {
      assert [Failing("")][1..] == [];
    }
  }

  /** A run whose first three calls go through stamps the first name and goes on. */
  lemma FirstStamped(vms: map<string, Vm>, rest: seq<Fault>, groupId: string, names: seq<string>, k: nat, landed: bool)
    requires names != [] && names[0] in vms
    requires StopsAt(Api(vms[names[0] := Marked(vms[names[0]], Some(groupId))], rest), groupId, names[1..], k, landed)
    ensures StopsAt(Api(vms, [Fine, Fine, Fine] + rest), groupId, names, k + 1, landed)
  {
    ThreeCalls(vms, rest, names[0], Some(groupId));
    hide Fetch, SetGroup, SetLands, Marked, AllFine;
  }

  lemma {:induction false} StopsAfter(vms: map<string, Vm>, groupId: string, names: seq<string>, k: nat, rest: seq<Fault>, landed: bool)
    requires k < |names| && (forall i :: 0 <= i <= k ==> names[i] in vms) && Stops(rest, landed)
    ensures StopsAt(Api(vms, Delayed(k, rest)), groupId, names, k, landed)
    decreases k
  {
    hide StopsAt, Stops, Marked;
    if k == 0 {
      StopsHere(vms, groupId, names, rest, landed);
    } else {
      var vms' := vms[names[0] := Marked(vms[names[0]], Some(groupId))];
      StopsAfter(vms', groupId, names[1..], k - 1, rest, landed);
      FirstStamped(vms, Delayed(k - 1, rest), groupId, names, k - 1, landed);
    }
  }

  lemma {:induction false} MissingStops(vms: map<string, Vm>, groupId: string, names: seq<string>)
    requires Existing(vms, names) < |names|
    ensures var (after, error, n) := StampAll(Api(vms, []), groupId, names);
            n == Existing(vms, names) && error.Some? && AllFine(after)
    decreases names
  {
    if names[0] in vms {
      var vms' := vms[names[0] := Marked(vms[names[0]], Some(groupId))];
      SameExisting(vms, vms', names[1..]);
      assert SetGroup(Fetch(Api(vms, []), names[0]).0, names[0], Some(groupId)) == (Api(vms', []), None);
      hide Fetch, SetGroup, Marked, AllFine;
      MissingStops(vms', groupId, names[1..]);
    }
  }

  lemma {:induction false} SameExisting(v: map<string, Vm>, w: map<string, Vm>, names: seq<string>)
    requires v.Keys == w.Keys
    ensures Existing(v, names) == Existing(w, names)
  {
    if names != [] {
      assert names[0] in v.Keys <==> names[0] in w.Keys;
      SameExisting(v, w, names[1..]);
    }
  }

  // ---------------------------------------------------------------- all patterns of failures

  /** No write lands without its reply. */
  predicate Heard(faults: seq<Fault>) {
    forall f :: f in faults ==> !f.Unheard?
  }

  lemma HeardAttempt(api: Api, name: string, groupId: Option<string>)
    requires Heard(api.faults)
    ensures Attempt(api, name, groupId).1 == None <==> AttemptLands(api, name)
    ensures Heard(Attempt(api, name, groupId).0.faults)
  {
    AttemptEffect(api, name, groupId);
    hide Marked, MissingText;
    ConsumedWithin(api, api.faults);
    ConsumedWithin(api.Consumed(), api.faults);
  }

  /** Then a stamp reported as failed has not landed. */
  lemma {:induction false} HeardStops(api: Api, groupId: string, names: seq<string>)
    requires Heard(api.faults)
    ensures !StopsLanded(api, groupId, names)
    decreases names
  {
    if names != [] {
      var api1 := Fetch(api, names[0]).0;
      assert Heard(api1.faults);
      HeardAttempt(api1, names[0], Some(groupId));
      var api2 := Attempt(api1, names[0], Some(groupId)).0;
      HeardAttempt(api2, names[0], Some(groupId));
      SetGroupEffect(api1, names[0], Some(groupId));
      hide Fetch, Attempt, AttemptLands, Marked, IsConflict, Wrapped;
      assert SetGroup(api1, names[0], Some(groupId)).1.Some? ==> !SetLands(api1, names[0], Some(groupId));
      hide SetGroup, SetLands;
      HeardStops(SetGroup(api1, names[0], Some(groupId)).0, groupId, names[1..]);
    }
  }

  /** The stamp fails, and its rollback calls go through. */
  predicate FailsAndUndoes(vms: map<string, Vm>, faults: seq<Fault>, groupId: string, names: seq<string>) {
    StampAll(Api(vms, faults), groupId, names).1.Some? && AllFine(StampAll(Api(vms, faults), groupId, names).0)
  }

  predicate Restores(vms: map<string, Vm>, faults: seq<Fault>, groupId: string, names: seq<string>) {
    Stamp(Api(vms, faults), groupId, names).0.vms == vms
  }

  /** How far a failing run can count, and what it can stop at. */
  lemma CountBounds(vms: map<string, Vm>, faults: seq<Fault>, groupId: string, names: seq<string>)
    requires FailsAndUndoes(vms, faults, groupId, names)
    ensures StampAll(Api(vms, faults), groupId, names).2 <= Stampable(vms, names) <= Existing(vms, names) <= |names|
    ensures forall i :: 0 <= i < Existing(vms, names) ==> names[i] in vms
    ensures StopsLanded(Api(vms, faults), groupId, names) ==> StampAll(Api(vms, faults), groupId, names).2 < Existing(vms, names)
  {
    hide StampAll, StopsLanded, Stamp, Existing, Ungrouped, Carries, AllFine;
    ExistingMeaning(vms, names);
    FailedStampRestoresExactly(Api(vms, faults), groupId, names);
    BelowExisting(vms, names, StampAll(Api(vms, faults), groupId, names).2);
  }

  /** When the names before n exist, the first missing one is not before n. */
  lemma BelowExisting(vms: map<string, Vm>, names: seq<string>, n: nat)
    requires n < |names| && forall i :: 0 <= i < n ==> names[i] in vms
    ensures n <= Stampable(vms, names) <= Existing(vms, names)
    ensures names[n] in vms ==> n < Existing(vms, names)
  {
    ExistingMeaning(vms, names);
    hide Existing;
  }

  /** The names that can be counted before a failure are without a group label. */
  predicate NoneGrouped(vms: map<string, Vm>, names: seq<string>) {
    forall i :: 0 <= i < Stampable(vms, names) && i < |names| && names[i] in vms ==> Ungrouped(vms[names[i]])
  }

  /** The names that can be stopped at carry the id already. */
  predicate AllCarry(vms: map<string, Vm>, groupId: string, names: seq<string>) {
    forall i :: 0 <= i < Existing(vms, names) && i < |names| && names[i] in vms && names[i] !in names[..i] ==> Carries(vms[names[i]], groupId)
  }

  /**
   * Without lost replies, every stamp that fails and whose rollback calls go through
   * restores all VMs exactly when none of the names that can be reached carries a
   * group label: the names before the first that does not exist, or all but the last.
   */
  lemma HeardStampsRestoreExactly(vms: map<string, Vm>, groupId: string, names: seq<string>)
    ensures (forall faults :: Heard(faults) && FailsAndUndoes(vms, faults, groupId, names) ==> Restores(vms, faults, groupId, names))
       <==> NoneGrouped(vms, names)
  {
    hide FailsAndUndoes, Restores, NoneGrouped, AllCarry;
    if NoneGrouped(vms, names) {
      forall faults | Heard(faults) && FailsAndUndoes(vms, faults, groupId, names) ensures Restores(vms, faults, groupId, names) {
        HeardStops(Api(vms, faults), groupId, names);
        RestoredWhenNone(vms, faults, groupId, names);
      }
    } else {
      var faults := GroupedBreaks(vms, groupId, names);
    }
  }

  lemma RestoredWhenNone(vms: map<string, Vm>, faults: seq<Fault>, groupId: string, names: seq<string>)
    requires FailsAndUndoes(vms, faults, groupId, names) && NoneGrouped(vms, names)
    requires StopsLanded(Api(vms, faults), groupId, names) ==> AllCarry(vms, groupId, names)
    ensures Restores(vms, faults, groupId, names)
  {
    CountBounds(vms, faults, groupId, names);
    FailedStampRestoresExactly(Api(vms, faults), groupId, names);
    hide StampAll, StopsLanded, Stamp, Existing, Stampable, Ungrouped, Carries, AllFine;
  }

  /** A name that can be counted and is in a group: let the run stop right after. */
  lemma GroupedBreaks(vms: map<string, Vm>, groupId: string, names: seq<string>) returns (faults: seq<Fault>)
    requires !NoneGrouped(vms, names)
    ensures Heard(faults) && FailsAndUndoes(vms, faults, groupId, names) && !Restores(vms, faults, groupId, names)
  {
    ExistingMeaning(vms, names);
    var reach := Stampable(vms, names);
    if Existing(vms, names) < |names| {
      faults := [];
      MissingStops(vms, groupId, names);
    } else {
      faults := Delayed(reach, [Failing("")]);
      StopsAfter(vms, groupId, names, reach, [Failing("")], false);
      DelayedHeard(reach, [Failing("")]);
    }
    hide StampAll, Existing, Ungrouped, Carries, AllFine, Delayed, Stamp, StopsLanded;
    FailedStampRestoresExactly(Api(vms, faults), groupId, names);
  }

  lemma {:induction false} DelayedHeard(k: nat, rest: seq<Fault>)
    requires Heard(rest)
    ensures Heard(Delayed(k, rest))
  {
    if k > 0 {
      DelayedHeard(k - 1, rest);
    }
  }

  /** A name that can be stopped at and does not carry the id: let its stamp land unheard. */
  lemma LandedBreaks(vms: map<string, Vm>, groupId: string, names: seq<string>) returns (faults: seq<Fault>)
    requires !AllCarry(vms, groupId, names)
    ensures FailsAndUndoes(vms, faults, groupId, names) && !Restores(vms, faults, groupId, names)
  {
    ExistingMeaning(vms, names);
    var i: int :| 0 <= i < Existing(vms, names) && i < |names| && names[i] in vms && names[i] !in names[..i] && !Carries(vms[names[i]], groupId);
    faults := Delayed(i, [Fine, Fine, Unheard("")]);
    StopsAfter(vms, groupId, names, i, [Fine, Fine, Unheard("")], true);
    hide StampAll, Existing, Ungrouped, Carries, AllFine, Delayed, Stamp, StopsLanded;
    FailedStampRestoresExactly(Api(vms, faults), groupId, names);
  }

  /**
   * Over all patterns of failures, every stamp that fails and whose rollback calls go
   * through restores all VMs exactly when, besides, each name that can be stopped at
   * carries the id already. With an id to stamp, that leaves a list whose first name
   * does not exist, and a single name that is in the group.
   */
  lemma FailedStampsRestoreExactly(vms: map<string, Vm>, groupId: string, names: seq<string>)
    ensures (forall faults :: FailsAndUndoes(vms, faults, groupId, names) ==> Restores(vms, faults, groupId, names))
       <==> NoneGrouped(vms, names) && AllCarry(vms, groupId, names)
    ensures groupId != "" ==>
              (NoneGrouped(vms, names) && AllCarry(vms, groupId, names)
               <==> names == [] || names[0] !in vms || (|names| == 1 && InGroup(vms[names[0]], groupId)))
  {
    if groupId != "" {
      NothingToLose(vms, groupId, names);
    }
    hide FailsAndUndoes, Restores, NoneGrouped, AllCarry;
    if NoneGrouped(vms, names) && AllCarry(vms, groupId, names) {
      forall faults | FailsAndUndoes(vms, faults, groupId, names) ensures Restores(vms, faults, groupId, names) {
        RestoredWhenNone(vms, faults, groupId, names);
      }
    } else if !NoneGrouped(vms, names) {
      var faults := GroupedBreaks(vms, groupId, names);
    } else {
      var faults := LandedBreaks(vms, groupId, names);
    }
  }

  lemma NothingToLose(vms: map<string, Vm>, groupId: string, names: seq<string>)
    requires groupId != ""
    ensures NoneGrouped(vms, names) && AllCarry(vms, groupId, names)
       <==> names == [] || names[0] !in vms || (|names| == 1 && InGroup(vms[names[0]], groupId))
  {
    ExistingMeaning(vms, names);
    if names != [] && names[0] in vms {
      assert names[..0] == [];
      assert Existing(vms, names) >= 1;
      if NoneGrouped(vms, names) && AllCarry(vms, groupId, names) {
        assert Carries(vms[names[0]], groupId);
        assert Stampable(vms, names) == 0;
      } else if |names| == 1 {
        assert Stampable(vms, names) == 0;
      }
    }
  }

  /**
   * For instance a VM without a label whose stamp lands while the reply is lost: the
   * stamp is reported as failed, nothing is rolled back, and the VM stays in the group.
   */
  lemma UnheardStampStays(vms: map<string, Vm>, name: string, groupId: string)
    requires name in vms && groupId != ""
    ensures var (after, error) := Stamp(Api(vms, [Fine, Fine, Unheard("")]), groupId, [name]);
            error.Some? && after.vms == vms[name := Marked(vms[name], Some(groupId))] && InGroup(after.vms[name], groupId)
  {
    var api := Api(vms, [Fine, Fine, Unheard("")]);
    StopsHere(vms, groupId, [name], api.faults, true);
    StampAllEffect(api, groupId, [name]);
    MarkedMeaning(vms[name], groupId);
    hide StampAll, StopsLanded, Marked, AllFine;
    assert [name][..1] == [name] && [name][..0] == [];
    assert Stamp(api, groupId, [name]).0 == StampAll(api, groupId, [name]).0;
    OverlayNothing(vms[name := Marked(vms[name], Some(groupId))], Some(groupId));
    OverlayStep(vms, name, [], Some(groupId));
  }

  /** Some scheduled failure reads as "not found" once it is about this VM. */
  predicate Swallowed(faults: seq<Fault>, name: string) {
    exists f :: f in faults && !f.Fine? && IsNotFound(Wrapped(name, f.text))
  }

  /** A VM the unstamp reported nothing about: cleared, or missed by the text search. */
  predicate ClearedOrMissed(before: Vm, after: Vm, faults: seq<Fault>, name: string) {
    after == Marked(before, None) || (after == before && Swallowed(faults, name))
  }

  lemma {:induction false} UnstampEffect(api: Api, names: seq<string>, faults: seq<Fault>)
    requires Within(api, faults)
    ensures var (after, error) := Unstamp(api, names);
            && Within(after, faults)
            && after.vms.Keys == api.vms.Keys
            && (forall v :: v in api.vms && v !in names ==> after.vms[v] == api.vms[v])
            && (forall v :: v in api.vms && v in names ==>
                  after.vms[v] == api.vms[v] || after.vms[v] == Marked(api.vms[v], None))
            && (error == None ==> forall v :: v in api.vms && v in names ==> ClearedOrMissed(api.vms[v], after.vms[v], faults, v))
    decreases names
  {
    if names != [] {
      var first, rest := names[0], names[1..];
      SetGroupEffect(api, first, None);
      var (api1, error) := SetGroup(api, first, None);
      WithinTrans(api1, api.faults, faults);
      UnstampEffect(api1, rest, faults);
      hide SetGroup, IsNotFound, Wrapped;
      assert forall v :: v in names <==> v == first || v in rest;
      forall v | v in api.vms ensures Marked(Marked(api.vms[v], None), None) == Marked(api.vms[v], None) {
        MarkedTwice(api.vms[v], None, None);
      }
      hide Marked;
    }
  }

  lemma {:induction false} StampWithin(api: Api, groupId: string, names: seq<string>, faults: seq<Fault>)
    requires Within(api, faults)
    ensures Within(StampAll(api, groupId, names).0, faults)
    decreases names
  {
    if names != [] {
      ConsumedWithin(api, faults);
      var api1 := Fetch(api, names[0]).0;
      assert api1 == api.Consumed();
      SetGroupEffect(api1, names[0], Some(groupId));
      var api2 := SetGroup(api1, names[0], Some(groupId)).0;
      WithinTrans(api2, api1.faults, faults);
      hide Fetch, SetGroup, Marked;
      StampWithin(api2, groupId, names[1..], faults);
    }
  }

  // ---------------------------------------------------------------- the update theorem

  lemma {:induction false} MinusMembers(a: seq<string>, b: seq<string>)
    ensures forall x :: x in Minus(a, b) <==> x in a && x !in b
    ensures forall x :: x in Common(a, b) <==> x in a && x in b
  {
    if a != [] {
      MinusMembers(a[..|a| - 1], b);
      assert a == a[..|a| - 1] + [a[|a| - 1]];
    }
  }

  function PrevNames(prev: Membership): seq<string> {
    if prev.Group? then prev.vmNames else []
  }

  /** Members are stamped as the Service records. */
  predicate StampedAsRecorded(api: Api, prev: Membership) {
    prev.Group? ==> forall v :: v in prev.vmNames && v in api.vms ==> InGroup(api.vms[v], prev.groupId)
  }

  /** Only the group label can differ. */
  predicate SameButGroup(x: Vm, y: Vm) {
    x.labels - {GROUP_LABEL} == y.labels - {GROUP_LABEL} && x.templateLabels - {GROUP_LABEL} == y.templateLabels - {GROUP_LABEL}
  }

  lemma StampEffect(api: Api, groupId: string, names: seq<string>)
    requires Stamp(api, groupId, names).1 == None
    ensures Stamp(api, groupId, names).0.vms == Overlay(api.vms, names, Some(groupId))
    ensures forall v :: v in names ==> v in api.vms
    ensures Within(Stamp(api, groupId, names).0, api.faults)
  {
    StampAllEffect(api, groupId, names);
    StampWithin(api, groupId, names, api.faults);
    assert names[..|names|] == names;
  }

  /**
   * A successful move to a group leaves every next member with the next id, clears
   * the members it drops, and touches no other VM and no other label.
   */
  lemma UpdateMovesGroup(api: Api, prev: Membership, next: Membership, v: string)
    requires next.Group? && next.groupId != "" && StampedAsRecorded(api, prev)
    requires UpdateVms(api, prev, next).1 == None && v in api.vms
    ensures var after := UpdateVms(api, prev, next).0.vms;
            && after.Keys == api.vms.Keys
            && (v in next.vmNames ==> InGroup(after[v], next.groupId))
            && (v in PrevNames(prev) && v !in next.vmNames ==> ClearedOrMissed(api.vms[v], after[v], api.faults, v))
            && (v !in PrevNames(prev) && v !in next.vmNames ==> after[v] == api.vms[v])
            && SameButGroup(after[v], api.vms[v])
    ensures forall w :: w in next.vmNames && w !in PrevNames(prev) ==> w in api.vms
  {
    var prevNames := PrevNames(prev);
    MinusMembers(next.vmNames, prevNames);
    MinusMembers(prevNames, next.vmNames);
    UpdateKeepsVms(api, prev, next);
    var added, left := UpdateChain(api, prev, next, v);
    hide UpdateVms, Minus, Common, Marked, Swallowed;
    MarkedMeaning(api.vms[v], next.groupId);
    MarkedMeaning(left, next.groupId);
  }

  /** What the three phases make of one VM. */
  lemma UpdateChain(api: Api, prev: Membership, next: Membership, v: string) returns (added: Vm, left: Vm)
    requires next.Group? && UpdateVms(api, prev, next).1 == None && v in api.vms
    ensures var prevNames, after := PrevNames(prev), UpdateVms(api, prev, next).0.vms;
            && v in after
            && added == (if v in Minus(next.vmNames, prevNames) then Marked(api.vms[v], Some(next.groupId)) else api.vms[v])
            && (if v in Minus(prevNames, next.vmNames) then ClearedOrMissed(added, left, api.faults, v) else left == added)
            && after[v] == if prev.Group? && prev.groupId != next.groupId && v in Common(next.vmNames, prevNames)
                           then Marked(left, Some(next.groupId)) else left
    ensures forall w :: w in Minus(next.vmNames, PrevNames(prev)) ==> w in api.vms
  {
    var prevNames := PrevNames(prev);
    var toAdd, toRemove, keep := Minus(next.vmNames, prevNames), Minus(prevNames, next.vmNames), Common(next.vmNames, prevNames);
    hide Stamp, Unstamp, Minus, Common, Marked, Overlay, ClearedOrMissed;
    var api1 := Stamp(api, next.groupId, toAdd).0;
    StampEffect(api, next.groupId, toAdd);
    OverlayAt(api.vms, toAdd, Some(next.groupId), v);
    added := api1.vms[v];
    UnstampEffect(api1, toRemove, api.faults);
    var api2 := Unstamp(api1, toRemove).0;
    left := api2.vms[v];
    if prev.Group? && prev.groupId != next.groupId {
      StampEffect(api2, next.groupId, keep);
      OverlayAt(api2.vms, keep, Some(next.groupId), v);
    }
  }

  /** An update neither creates nor deletes a VM. */
  lemma UpdateKeepsVms(api: Api, prev: Membership, next: Membership)
    requires next.Group? && UpdateVms(api, prev, next).1 == None
    ensures UpdateVms(api, prev, next).0.vms.Keys == api.vms.Keys
  {
    var prevNames := PrevNames(prev);
    var toAdd, toRemove, keep := Minus(next.vmNames, prevNames), Minus(prevNames, next.vmNames), Common(next.vmNames, prevNames);
    hide Stamp, Unstamp, Minus, Common, Marked;
    var api1 := Stamp(api, next.groupId, toAdd).0;
    StampEffect(api, next.groupId, toAdd);
    UnstampEffect(api1, toRemove, api.faults);
    if prev.Group? && prev.groupId != next.groupId {
      StampEffect(Unstamp(api1, toRemove).0, next.groupId, keep);
    }
  }

  lemma OverlayAt(vms: map<string, Vm>, touched: seq<string>, groupId: Option<string>, v: string)
    ensures Overlay(vms, touched, groupId).Keys == vms.Keys
    ensures v in vms ==> Overlay(vms, touched, groupId)[v] == if v in touched then Marked(vms[v], groupId) else vms[v]
  {
    hide Marked;
  }

  /** So exactly the next members carry the next id, when no other VM carried it before. */
  lemma ExactlyNextMembers(api: Api, prev: Membership, next: Membership, v: string)
    requires next.Group? && next.groupId != "" && StampedAsRecorded(api, prev)
    requires UpdateVms(api, prev, next).1 == None && v in api.vms
    requires v !in PrevNames(prev) && v !in next.vmNames ==> !InGroup(api.vms[v], next.groupId)
    requires v in PrevNames(prev) && v !in next.vmNames ==> !Swallowed(api.faults, v)
    ensures UpdateVms(api, prev, next).0.vms.Keys == api.vms.Keys
    ensures InGroup(UpdateVms(api, prev, next).0.vms[v], next.groupId) <==> v in next.vmNames
  {
    UpdateMovesGroup(api, prev, next, v);
    MarkedMeaning(api.vms[v], next.groupId);
    hide UpdateVms, Marked, Swallowed, StampedAsRecorded;
  }

  /** Leaving group mode clears the old members and touches nothing else. */
  lemma LeavingClears(api: Api, prev: Membership, next: Membership, v: string)
    requires prev.Group? && !next.Group? && UpdateVms(api, prev, next).1 == None && v in api.vms
    ensures UpdateVms(api, prev, next).0.vms.Keys == api.vms.Keys
    ensures var after := UpdateVms(api, prev, next).0.vms[v];
            if v in prev.vmNames then ClearedOrMissed(api.vms[v], after, api.faults, v) else after == api.vms[v]
  {
    UnstampEffect(api, prev.vmNames, api.faults);
    hide Unstamp, Marked;
  }

  // ---------------------------------------------------------------- swallowed failures

  /** The failures carry texts of the given set. */
  predicate Drawn(faults: seq<Fault>, texts: set<string>) {
    forall f :: f in faults && !f.Fine? ==> f.text in texts
  }

  predicate ClearedIn(vms: map<string, Vm>, name: string) {
    name in vms && Ungrouped(vms[name])
  }

  /**
   * "Unstamped" means cleared, for every pattern of failures with the given texts,
   * exactly when neither the VM's name nor any of the texts holds 404 or "not found".
   */
  lemma UnstampTruthfulExactly(vms: map<string, Vm>, name: string, texts: set<string>)
    requires name in vms && !Ungrouped(vms[name])
    ensures (forall faults :: Drawn(faults, texts) && Unstamp(Api(vms, faults), [name]).1 == None ==>
               ClearedIn(Unstamp(Api(vms, faults), [name]).0.vms, name))
       <==> forall t :: t in texts ==> !IsNotFound(name) && !IsNotFound(t)
  {
    if t :| t in texts && (IsNotFound(name) || IsNotFound(t)) {
      WrappedIsNotFound(name, t);
      var faults := SwallowedCall(vms, name, t);
      assert Drawn(faults, texts);
    } else {
      forall faults | Drawn(faults, texts) && Unstamp(Api(vms, faults), [name]).1 == None
        ensures ClearedIn(Unstamp(Api(vms, faults), [name]).0.vms, name)
      {
        UnstampEffect(Api(vms, faults), [name], faults);
        if Swallowed(faults, name) {
          var f: Fault :| f in faults && !f.Fine? && IsNotFound(Wrapped(name, f.text));
          WrappedIsNotFound(name, f.text);
        }
        hide Unstamp, IsNotFound, Wrapped, Swallowed;
        MarkedMeaning(vms[name], "");
      }
    }
  }

  /** The call fails for good with such a text, and the unstamp reports success. */
  lemma SwallowedCall(vms: map<string, Vm>, name: string, t: string) returns (faults: seq<Fault>)
    requires name in vms && IsNotFound(Wrapped(name, t))
    ensures forall f :: f in faults ==> f == Failing(t)
    ensures Unstamp(Api(vms, faults), [name]) == (Api(vms, []), None)
  {
    faults := if IsConflict(t) then [Failing(t), Failing(t)] else [Failing(t)];
    var api := Api(vms, faults);
    hide IsNotFound, Wrapped, IsConflict;
    assert [Failing(t)][1..] == [] && [Failing(t), Failing(t)][1..] == [Failing(t)];
    assert SetGroup(api, name, None) == (Api(vms, []), Some(Wrapped(name, t)));
    assert [name][1..] == [];
    assert Unstamp(Api(vms, []), []) == (Api(vms, []), None);
  }

  const FORBIDDEN := "HTTP-Code: 403 forbidden in the namespace \"prod-404\""

  /** A namespace with 404 in its name is enough: the refusal to clear "web" goes unreported. */
  lemma NamespaceIsEnough(vms: map<string, Vm>) returns (faults: seq<Fault>)
    requires "web" in vms && !Ungrouped(vms["web"])
    ensures !IsNotFound("web") && forall f :: f in faults ==> f == Failing(FORBIDDEN)
    ensures Unstamp(Api(vms, faults), ["web"]) == (Api(vms, []), None)
  {
    ShortIsClean("web");
    assert MentionsAt(ToLower(FORBIDDEN), 48, "404") by {
      assert ToLower(FORBIDDEN)[48..51] == "404";
    }
    WrappedIsNotFound("web", FORBIDDEN);
    hide IsNotFound, Wrapped;
    faults := SwallowedCall(vms, "web", FORBIDDEN);
  }

  lemma ShortIsClean(name: string)
    requires |name| == 3 && name[0] == 'w'
    ensures !IsNotFound(name)
  {
    var lower := ToLower(name);
    assert lower[0] == LowerChar('w') && lower[0..3] == lower;
    forall i: int ensures !MentionsAt(lower, i, "404") {
    }
  }
}
