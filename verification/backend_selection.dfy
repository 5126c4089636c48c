// Which VMs' pods a backend Service selects, after a create and any run of updates.
module BackendSelection {
  import opened Text
  import opened BackendGroup
  import opened ErrorText
  import opened ServiceMembership

  /** The labels of a VM's pod: those of its template, and the VM's name as KubeVirt sets it. */
  function PodLabels(name: string, vm: Vm): Labels {
    vm.templateLabels["kubevirt.io/vm" := name]
  }

  /** A selector selects when it is not empty and each of its entries is there. */
  predicate Selects(labels: Labels, selector: Labels) {
    selector != map[] && forall k :: k in selector ==> k in labels && labels[k] == selector[k]
  }

  /** `labelsMatchSelector`. */
  method LabelsMatchSelector(labels: Labels, selector: Labels) returns (matches: bool)
    ensures matches == Selects(labels, selector)
  {
    if selector == map[] { return false; }
    var keys := selector.Keys;
    while keys != {}
      invariant keys <= selector.Keys
      invariant forall k :: k in selector && k !in keys ==> k in labels && labels[k] == selector[k]
      decreases keys
    {
      var k :| k in keys;
      if k !in labels || labels[k] != selector[k] { return false; }
      keys := keys - {k};
    }
    return true;
  }

  /** The VMs a membership asks for: by name, by the pairs of their pod's labels, by the group id. */
  predicate AsksFor(m: Membership, name: string, vm: Vm) {
    match m
    case SingleVm(vmName) => name == vmName
    case MatchLabels(pairs) =>
      forall k :: k in pairs ==>
        if k == "kubevirt.io/vm" then pairs[k] == name else k in vm.templateLabels && vm.templateLabels[k] == pairs[k]
    case Group(id, _) =>
      "kmc.ianunruh.com/backend-group" in vm.templateLabels && vm.templateLabels["kmc.ianunruh.com/backend-group"] == id
    case Unknown => false
  }

  /** The Service selects the pods of the membership last written. */
  predicate InAgreement(w: World) {
    && w.stored.Some? && !w.last.Unknown? && (w.last.MatchLabels? ==> w.last.matchLabels != map[])
    && Some(w.stored.value.selector) == ResolveServiceSelector(w.last)
  }

  lemma AgreementSelects(w: World, name: string, vm: Vm)
    requires InAgreement(w)
    ensures Selects(PodLabels(name, vm), w.stored.value.selector) <==> AsksFor(w.last, name, vm)
  {
    assert "kubevirt.io/vm" != "kmc.ianunruh.com/backend-group" by {
      assert "kubevirt.io/vm"[1] == 'u' && "kmc.ianunruh.com/backend-group"[1] == 'm';
    }
    var selector, pod := w.stored.value.selector, PodLabels(name, vm);
    match w.last
    case SingleVm(vmName) =>
      assert "kubevirt.io/vm" in selector;
    case Group(id, _) =>
      assert "kmc.ianunruh.com/backend-group" in selector;
    case MatchLabels(pairs) =>
      assert forall k :: k in selector ==>
        ((k in pod && pod[k] == selector[k])
         <==> if k == "kubevirt.io/vm" then pairs[k] == name else k in vm.templateLabels && vm.templateLabels[k] == pairs[k]);
  }

  lemma ValidPairs(m: Membership)
    requires ValidMembership(m)
    ensures Normalized(m).MatchLabels? ==> Normalized(m).matchLabels != map[]
  {
    hide NormalizedNames, Trim;
  }

  /** A create that left a Service, whether or not its reply arrived. */
  lemma CreatedAgrees(api: Api, c: Creation, json: Json)
    requires Create(api, None, c, json).1.Some?
    ensures InAgreement(Created(api, c, json))
  {
    assert ValidMembership(c.membership) && !Normalized(c.membership).Unknown?
      && Create(api, None, c, json).1 == Some(Manifest(Normalized(c.membership), c, json)) by {
      hide Stamp, CheckSingleVm, UndoStamps, Manifest, ValidMembership, Normalized, LookupError, SaysExists, IsNotFound;
    }
    ValidPairs(c.membership);
    hide Create, Normalized, ValidMembership, MembershipLabels, MembershipAnnotations;
  }

  lemma UpdateAgrees(w: World, e: Edit, json: Json)
    requires InAgreement(w)
    ensures InAgreement(Apply(w, e, json))
  {
    if e.membership.Some? && Landed(w, e, json) {
      LandedService(w, e, json);
      ValidPairs(e.membership.value);
      hide Update, Landed, Normalized, ValidMembership, MembershipLabels, MembershipAnnotations;
    } else {
      OtherwiseSame(w, e, json);
      hide Update, Landed;
    }
  }

  lemma {:induction false} RunsAgree(api: Api, c: Creation, edits: seq<Edit>, json: Json)
    requires Create(api, None, c, json).1.Some?
    ensures InAgreement(ApplyAll(Created(api, c, json), edits, json))
    decreases |edits|
  {
    if edits == [] {
      CreatedAgrees(api, c, json);
    } else {
      var front := edits[..|edits| - 1];
      RunsAgree(api, c, front, json);
      UpdateAgrees(ApplyAll(Created(api, c, json), front, json), edits[|edits| - 1], json);
    }
  }

  /**
   * After a create that was stored and any run of updates, failing or not, the Service
   * selects the pod of a VM exactly when the membership last written asks for the VM.
   */
  lemma RunsSelectExactly(api: Api, c: Creation, edits: seq<Edit>, json: Json, name: string, vm: Vm)
    requires Create(api, None, c, json).1.Some?
    ensures var w := ApplyAll(Created(api, c, json), edits, json);
            w.stored.Some? && (Selects(PodLabels(name, vm), w.stored.value.selector) <==> AsksFor(w.last, name, vm))
  {
    RunsAgree(api, c, edits, json);
    hide Create, Created, ApplyAll, InAgreement, Selects, AsksFor;
    AgreementSelects(ApplyAll(Created(api, c, json), edits, json), name, vm);
  }

  /**
   * While the requests succeed, every member the Service records has its pod selected;
   * in group mode a VM that is not a member is, when its template carries the id.
   */
  lemma RecordedAreSelected(api: Api, c: Creation, edits: seq<Edit>, json: Json, v: string)
    requires json.Inverse() && Create(api, None, c, json).2 == None && CommaFree(c.membership) && EditsCommaFree(edits)
    requires c.extraLabels.Keys !! MEMBERSHIP_LABELS && c.extraAnnotations.Keys !! MEMBERSHIP_ANNOTATIONS
    requires AllSucceed(Created(api, c, json), edits, json)
    requires v in ApplyAll(Created(api, c, json), edits, json).api.vms
    ensures var w := ApplyAll(Created(api, c, json), edits, json);
            w.stored.Some?
            && var m := Recorded(w.stored.value, json);
               (m.Group? && v in m.vmNames) || (m.SingleVm? && v == m.vmName)
               ==> Selects(PodLabels(v, w.api.vms[v]), w.stored.value.selector)
  {
    var w := ApplyAll(Created(api, c, json), edits, json);
    RunsReadBack(api, c, edits, json);
    RunsKeepStamps(api, c, edits, json);
    assert Create(api, None, c, json).1.Some? by {
      CreatedManifest(api, c, json);
      hide Create, Manifest;
    }
    RunsSelectExactly(api, c, edits, json, v, w.api.vms[v]);
    hide Create, Created, ApplyAll, AllSucceed, Selects, Recorded, CommaFree, EditsCommaFree, InStep;
  }

  /** The VM of a single-VM request was there for a request that got past the check. */
  lemma CheckedVmIsThere(api: Api, m: Membership)
    requires m.SingleVm? && CheckSingleVm(api, m).1 == None
    ensures m.vmName in api.vms
  {
    hide IsNotFound, MissingText;
  }

  /**
   * A create that succeeds found every VM it names, at most 32 of them, and left a
   * Service that later updates take for one of theirs, unless a label given with the
   * request says otherwise.
   */
  lemma CreateNeedsVms(api: Api, c: Creation, json: Json)
    requires Create(api, None, c, json).2 == None
    ensures c.membership.SingleVm? ==> c.membership.vmName in api.vms
    ensures c.membership.Group? ==>
              0 < |c.membership.vmNames| <= 32
              && forall n :: n in c.membership.vmNames && Trim(n, JsSpace) != "" ==> Trim(n, JsSpace) in api.vms
    ensures var s := Create(api, None, c, json).1;
            s.Some? && ("kmc.ianunruh.com/resource" !in c.extraLabels ==>
                          "kmc.ianunruh.com/resource" in s.value.labels && s.value.labels["kmc.ianunruh.com/resource"] == "backend")
  {
    var m := Normalized(c.membership);
    CreatedManifest(api, c, json);
    assert CheckSingleVm(api, m).1 == None && (m.Group? ==> Stamp(CheckSingleVm(api, m).0, m.groupId, m.vmNames).1 == None) by {
      hide Stamp, CheckSingleVm, UndoStamps, Manifest, ValidMembership, Normalized, LookupError, SaysExists, IsNotFound;
    }
    ManagedByUs(m, c, json);
    hide Create, Manifest, MembershipLabels, MembershipAnnotations, Stamp, NormalizedNames, Trim;
    if c.membership.SingleVm? {
      CheckedVmIsThere(api, m);
    } else if c.membership.Group? {
      NormalizedMeaning(c.membership.vmNames);
      StampEffect(api, m.groupId, m.vmNames);
    }
  }

  lemma ManagedByUs(m: Membership, c: Creation, json: Json)
    requires !m.Unknown?
    ensures "kmc.ianunruh.com/resource" !in c.extraLabels ==>
              "kmc.ianunruh.com/resource" in Manifest(m, c, json).labels
              && Manifest(m, c, json).labels["kmc.ianunruh.com/resource"] == "backend"
  {
    var key := "kmc.ianunruh.com/resource";
    assert key[17] == 'r' && KIND_LABEL[17] == 't' && VM_LABEL[17] == 'v' && GROUP_LABEL[17] == 'b';
  }

  /** So does an update whose write was reached. */
  lemma UpdateNeedsVms(w: World, e: Edit, json: Json)
    requires w.stored.Some? && e.membership.Some? && Landed(w, e, json)
    ensures At(w.stored.value.labels, "kmc.ianunruh.com/resource") == "backend"
    ensures e.membership.value.SingleVm? ==> e.membership.value.vmName in w.api.vms
    ensures e.membership.value.Group? ==> 0 < |e.membership.value.vmNames| <= 32
  {
    var next := Normalized(e.membership.value);
    assert ValidMembership(e.membership.value) && At(w.stored.value.labels, "kmc.ianunruh.com/resource") == "backend"
      && Update(w.api, w.stored, e, json) == Move(w.api, w.stored.value, next, e, json) by {
      LandedService(w, e, json);
      hide Move, ValidMembership, Normalized, At;
    }
    CheckFailure(w.api, next);
    assert CheckSingleVm(w.api, next).1 == None by {
      hide UpdateVms, CheckSingleVm, Recorded, Rewritten, ValidMembership, Normalized;
    }
    hide Update, Move, NormalizedNames, Trim;
    if next.SingleVm? {
      CheckedVmIsThere(w.api, next);
    }
  }

  /** A Service that is not a backend, or a request that is not valid, changes nothing at all. */
  lemma RefusedUpFront(api: Api, stored: Option<Service>, e: Edit, json: Json)
    requires stored == None || At(stored.value.labels, "kmc.ianunruh.com/resource") != "backend"
             || (e.membership.Some? && !ValidMembership(e.membership.value))
    ensures var (after, service, failure) := Update(api, stored, e, json);
            after == api && service == stored && failure.Some?
  {
    hide ValidMembership, Move, Replaced;
  }

  // ---------------------------------------------------------------- the record

  /** What the label and annotation keys say of a membership, and that no other mode's key is there. */
  predicate Records(s: Service, m: Membership, json: Json) {
    && Has(s.labels, "kmc.ianunruh.com/target-kind",
           if m.SingleVm? then Some("VirtualMachine") else if m.MatchLabels? then Some("LabelSelector") else Some("Group"))
    && Has(s.labels, "kmc.ianunruh.com/vm", if m.SingleVm? then Some(m.vmName) else None)
    && Has(s.labels, "kmc.ianunruh.com/backend-group", if m.Group? then Some(m.groupId) else None)
    && Has(s.annotations, "kmc.ianunruh.com/match-labels", if m.MatchLabels? then Some(json.stringify(m.matchLabels)) else None)
    && Has(s.annotations, "kmc.ianunruh.com/member-vms", if m.Group? then Some(Join(m.vmNames, ',')) else None)
  }

  predicate Has(entries: Labels, key: string, value: Option<string>) {
    match value case None => key !in entries case Some(v) => key in entries && entries[key] == v
  }

  /** After a create and any run of updates, failing or not, the keys are those of the last membership written. */
  lemma RunsRecordExactly(api: Api, c: Creation, edits: seq<Edit>, json: Json)
    requires json.Inverse() && Create(api, None, c, json).2 == None && CommaFree(c.membership) && EditsCommaFree(edits)
    requires c.extraLabels.Keys !! MEMBERSHIP_LABELS && c.extraAnnotations.Keys !! MEMBERSHIP_ANNOTATIONS
    ensures var w := ApplyAll(Created(api, c, json), edits, json);
            w.stored.Some? && !w.last.Unknown? && Records(w.stored.value, w.last, json)
  {
    RunsReadBack(api, c, edits, json);
    hide Create, Created, ApplyAll, CommaFree, EditsCommaFree, Recorded, Records, Describes, ResolveServiceSelector;
    var w := ApplyAll(Created(api, c, json), edits, json);
    DescribedRecords(w.stored.value, w.last, json);
  }

  lemma DescribedRecords(s: Service, m: Membership, json: Json)
    requires Describes(s, m, json)
    ensures !m.Unknown? && Records(s, m, json)
  {
    hide Join;
    assert KIND_LABEL in MEMBERSHIP_LABELS && VM_LABEL in MEMBERSHIP_LABELS && GROUP_LABEL in MEMBERSHIP_LABELS;
    assert MATCH_LABELS_ANN in MEMBERSHIP_ANNOTATIONS && MEMBER_VMS_ANN in MEMBERSHIP_ANNOTATIONS;
    assert KIND_LABEL[17] == 't' && VM_LABEL[17] == 'v' && GROUP_LABEL[17] == 'b';
    assert MATCH_LABELS_ANN[18] == 'a' && MEMBER_VMS_ANN[18] == 'e';
  }
}
