// How a backend Service records its membership in labels and annotations, how the
// record is read back, and create and update of the Service together with the stamps
// on the member VMs.
module ServiceMembership {
  import opened Text
  import opened ErrorText
  import opened BackendGroup
  import opened SliceSort

  const KIND_LABEL := "kmc.ianunruh.com/target-kind"
  const VM_LABEL := "kmc.ianunruh.com/vm"
  const MATCH_LABELS_ANN := "kmc.ianunruh.com/match-labels"
  const MEMBER_VMS_ANN := "kmc.ianunruh.com/member-vms"
  const RESOURCE_LABEL := "kmc.ianunruh.com/resource"
  const MANAGED_BY_LABEL := "app.kubernetes.io/managed-by"
  const POD_VM_LABEL := "kubevirt.io/vm"

  const MEMBERSHIP_LABELS: set<string> := {KIND_LABEL, VM_LABEL, GROUP_LABEL}
  const MEMBERSHIP_ANNOTATIONS: set<string> := {MATCH_LABELS_ANN, MEMBER_VMS_ANN}

  const MAX_GROUP_VMS := 32

  /**
   * JSON text of a label map. `parse` gives the string-valued entries when the text
   * is an object, None when it is not or does not parse.
   */
  datatype Json = Json(stringify: Labels -> string, parse: string -> Option<Labels>)
  {
    ghost predicate Inverse() {
      forall m :: stringify(m) != "" && parse(stringify(m)) == Some(m)
    }
  }

  datatype Service = Service(labels: Labels, annotations: Labels, selector: Labels)

  // ---------------------------------------------------------------- member names

  /** `names.map(n => n.trim()).filter(Boolean)` */
  function Kept(names: seq<string>): seq<string> {
    if names == [] then []
    else
      var name := Trim(names[0], JsSpace);
      (if name == "" then [] else [name]) + Kept(names[1..])
  }

  /** `[...new Set(names)]` */
  function Unique(names: seq<string>): seq<string> {
    if names == [] then []
    else
      var front, last := Unique(names[..|names| - 1]), names[|names| - 1];
      if last in front then front else front + [last]
  }

  function NameKey(name: string): SortKey {
    [name]
  }

  function NormalizedNames(names: seq<string>): seq<string> {
    SortSeq(NameKey, Unique(Kept(names)))
  }

  predicate GoodName(name: string) {
    name != "" && Trimmed(name, JsSpace)
  }

  lemma {:induction false} KeptMembers(names: seq<string>)
    ensures forall x :: x in Kept(names) <==> x != "" && exists n :: n in names && x == Trim(n, JsSpace)
    ensures forall x :: x in Kept(names) ==> GoodName(x)
  {
    if names != [] {
      KeptMembers(names[1..]);
      TrimShape(names[0], JsSpace);
      hide Trim, Trimmed;
      assert forall n :: n in names <==> n == names[0] || n in names[1..];
    }
  }

  lemma {:induction false} UniqueMembers(names: seq<string>)
    ensures forall x :: x in Unique(names) <==> x in names
    ensures forall i, j :: 0 <= i < j < |Unique(names)| ==> Unique(names)[i] != Unique(names)[j]
  {
    if names != [] {
      UniqueMembers(names[..|names| - 1]);
      assert names == names[..|names| - 1] + [names[|names| - 1]];
    }
  }

  lemma {:induction false} DistinctCount(s: seq<string>, x: string)
    requires forall i, j :: 0 <= i < j < |s| ==> s[i] != s[j]
    ensures multiset(s)[x] <= 1
  {
    if s != [] {
      var k := |s| - 1;
      DistinctCount(s[..k], x);
      assert s == s[..k] + [s[k]];
      if x == s[k] {
        assert x !in s[..k];
      }
    }
  }

  /** The normal form lists the trimmed, non-blank names in strictly ascending order. */
  lemma NormalizedMeaning(names: seq<string>)
    ensures forall x :: x in NormalizedNames(names) <==> x != "" && exists n :: n in names && x == Trim(n, JsSpace)
    ensures forall x :: x in NormalizedNames(names) ==> GoodName(x)
    ensures forall i, j :: 0 <= i < j < |NormalizedNames(names)| ==> StrLess(NormalizedNames(names)[i], NormalizedNames(names)[j])
  {
    var unique, sorted := Unique(Kept(names)), NormalizedNames(names);
    KeptMembers(names);
    UniqueMembers(Kept(names));
    SortSeqSorts(NameKey, unique);
    hide Kept, Unique, SortSeq, Trim, Trimmed, GoodName;
    forall x ensures x in sorted <==> x in unique {
      assert x in sorted <==> x in multiset(sorted);
      assert x in unique <==> x in multiset(unique);
    }
    forall i, j | 0 <= i < j < |sorted| ensures StrLess(sorted[i], sorted[j]) {
      DistinctCount(unique, sorted[i]);
      if sorted[i] == sorted[j] {
        TwiceCounted(sorted, i, j);
        assert false;
      }
      assert KeyAtMost(NameKey(sorted[i]), NameKey(sorted[j]));
      StrLessTotal(sorted[i], sorted[j]);
    }
  }

  // ---------------------------------------------------------------- write and read

  /** The pods a Service selects; None for a mode it cannot express. */
  function ResolveServiceSelector(m: Membership): Option<Labels> {
    match m
    case SingleVm(vm) => Some(map[POD_VM_LABEL := vm])
    case MatchLabels(labels) => Some(labels)
    case Group(id, _) => Some(map[GROUP_LABEL := id])
    case Unknown => None
  }

  function MembershipLabels(m: Membership): Option<Labels> {
    match m
    case SingleVm(vm) => Some(map[KIND_LABEL := "VirtualMachine", VM_LABEL := vm])
    case MatchLabels(_) => Some(map[KIND_LABEL := "LabelSelector"])
    case Group(id, _) => Some(map[KIND_LABEL := "Group", GROUP_LABEL := id])
    case Unknown => None
  }

  function MembershipAnnotations(m: Membership, json: Json): Labels {
    match m
    case MatchLabels(labels) => map[MATCH_LABELS_ANN := json.stringify(labels)]
    case Group(_, names) => map[MEMBER_VMS_ANN := Join(names, ',')]
    case _ => map[]
  }

  /** An absent entry reads as the empty string, which the source treats alike. */
  function At(entries: Labels, key: string): string {
    if key in entries then entries[key] else ""
  }

  function MembershipFromServiceMeta(labels: Labels, annotations: Labels, json: Json): Membership {
    var kind := At(labels, KIND_LABEL);
    if kind == "VirtualMachine" then
      if At(labels, VM_LABEL) != "" then SingleVm(At(labels, VM_LABEL)) else Unknown
    else if kind == "LabelSelector" then
      var raw := At(annotations, MATCH_LABELS_ANN);
      var parsed := if raw == "" then None else json.parse(raw);
      if parsed.Some? && parsed.value != map[] then MatchLabels(parsed.value) else Unknown
    else if kind == "Group" then
      if At(labels, GROUP_LABEL) == "" then Unknown
      else Group(At(labels, GROUP_LABEL), Kept(Split(At(annotations, MEMBER_VMS_ANN), ',')))
    else Unknown
  }

  function Recorded(s: Service, json: Json): Membership {
    MembershipFromServiceMeta(s.labels, s.annotations, json)
  }

  /** What the labels and annotations can carry. */
  predicate Expressible(m: Membership) {
    match m
    case SingleVm(vm) => vm != ""
    case MatchLabels(labels) => labels != map[]
    case Group(id, names) => id != "" && forall n :: n in names ==> GoodName(n) && ',' !in n
    case Unknown => false
  }

  lemma {:induction false} KeptIdentity(names: seq<string>)
    requires forall n :: n in names ==> GoodName(n)
    ensures Kept(names) == names
  {
    if names != [] {
      assert GoodName(names[0]);
      TrimOfTrimmed(names[0], JsSpace);
      hide Trim;
      KeptIdentity(names[1..]);
    }
  }

  lemma {:induction false} KeptHasNo(parts: seq<string>, c: char)
    requires forall p :: p in parts ==> c !in p
    ensures forall n :: n in Kept(parts) ==> c !in n
  {
    if parts != [] {
      TrimShape(parts[0], JsSpace);
      hide Trim;
      KeptHasNo(parts[1..], c);
    }
  }

  /** The comma-joined member list reads back exactly when no name is blank, padded or holds a comma. */
  lemma MemberListExactly(names: seq<string>)
    ensures Kept(Split(Join(names, ','), ',')) == names <==> forall n :: n in names ==> GoodName(n) && ',' !in n
  {
    var parts := Split(Join(names, ','), ',');
    if forall n :: n in names ==> GoodName(n) && ',' !in n {
      if names == [] {
        assert parts == [""];
      } else {
        SplitJoin(names, ',');
        KeptIdentity(names);
      }
    }
    SplitPieces(Join(names, ','), ',');
    KeptMembers(parts);
    KeptHasNo(parts, ',');
  }

  /** What is written for a membership reads back as that membership exactly when it is expressible. */
  lemma ReadBackExactly(m: Membership, json: Json)
    requires json.Inverse() && !m.Unknown?
    ensures MembershipFromServiceMeta(MembershipLabels(m).value, MembershipAnnotations(m, json), json) == m <==> Expressible(m)
  {
    if m.Group? {
      MemberListExactly(m.vmNames);
      hide Kept, Split, Join, GoodName;
    }
  }

  // ---------------------------------------------------------------- requests

  datatype Failure =
    | Rejected | NothingToUpdate | NoService | NotManaged | MissingVm | VmCall(error: string)
    | Exists | LookupFailed | Unsupported | BadPorts | WriteFailed | RereadFailed

  /** A write lands and is acknowledged, is refused, or lands while its reply is lost. */
  datatype WriteFate = Lands | Refused | LandsUnheard

  predicate ValidMembership(m: Membership) {
    match m
    case SingleVm(vm) => Trim(vm, JsSpace) != ""
    case MatchLabels(labels) => labels != map[]
    case Group(id, names) => Trim(id, JsSpace) != "" && 0 < |names| <= MAX_GROUP_VMS
    case Unknown => true
  }

  function Normalized(m: Membership): Membership {
    if m.Group? then Group(Trim(m.groupId, JsSpace), NormalizedNames(m.vmNames)) else m
  }

  /** A validated request is expressible exactly when its member names hold no comma. */
  lemma ValidatedExpressibleExactly(m: Membership)
    requires ValidMembership(m) && !m.Unknown?
    ensures Expressible(Normalized(m)) <==> (m.Group? ==> forall n :: n in m.vmNames ==> ',' !in Trim(n, JsSpace))
  {
    if m.Group? {
      NormalizedMeaning(m.vmNames);
      hide NormalizedNames, GoodName, Trim;
      forall n | n in m.vmNames && ',' in Trim(n, JsSpace) ensures Trim(n, JsSpace) in NormalizedNames(m.vmNames) {
      }
    }
  }

  /** `ensureSingleVmExists`, for the one mode that calls it. */
  function CheckSingleVm(api: Api, m: Membership): (Api, Option<Failure>) {
    if !m.SingleVm? then (api, None)
    else
      match Fetch(api, m.vmName)
      case (api1, Got(_)) => (api1, None)
      case (api1, Missed(e)) => (api1, Some(if IsNotFound(e) then MissingVm else VmCall(e)))
  }

  lemma CheckFailure(api: Api, m: Membership)
    ensures CheckSingleVm(api, m).1.Some? ==> CheckSingleVm(api, m).1.value.MissingVm? || CheckSingleVm(api, m).1.value.VmCall?
  {
    hide IsNotFound, MissingText;
  }

  // ---------------------------------------------------------------- create

  /** The read that looks for an existing Service is answered, or throws an error. */
  datatype Lookup = Answered | Threw(message: string, text: string)

  datatype Creation = Creation(
    name: string,
    membership: Membership,
    hasPorts: bool,
    extraLabels: Labels,
    extraAnnotations: Labels,
    lookup: Lookup,
    write: WriteFate)

  function Manifest(m: Membership, c: Creation, json: Json): Service
    requires !m.Unknown?
  {
    Service(
      map[MANAGED_BY_LABEL := "kmc", RESOURCE_LABEL := "backend"] + MembershipLabels(m).value + c.extraLabels,
      MembershipAnnotations(m, json) + c.extraAnnotations,
      ResolveServiceSelector(m).value)
  }

  /** Best effort, and only in group mode. */
  function UndoStamps(api: Api, m: Membership): Api {
    if m.Group? then Unstamp(api, m.vmNames).0 else api
  }

  /** What the lookup throws: its own error, or the 404 for a Service that is not there. */
  function LookupError(stored: Option<Service>, c: Creation): (e: Option<Lookup>)
    ensures e.Some? ==> e.value.Threw?
  {
    if c.lookup.Threw? then Some(c.lookup)
    else if stored.Some? then None
    else Some(Threw(MissingText(c.name), MissingText(c.name)))
  }

  /** The create request; the API server refuses a second Service of the name. */
  function CreateService(api: Api, stored: Option<Service>, m: Membership, c: Creation, json: Json): (Api, Option<Service>, Option<Failure>)
    requires !m.Unknown?
  {
    if stored.Some? || c.write == Refused then (UndoStamps(api, m), stored, Some(WriteFailed))
    else if c.write == Lands then (api, Some(Manifest(m, c, json)), None)
    else (UndoStamps(api, m), Some(Manifest(m, c, json)), Some(WriteFailed))
  }

  /**
   * An error that says "already exists" is taken for the function's own and thrown on
   * without undoing the stamps; one that reads as "not found" lets the create go on.
   */
  function Create(api: Api, stored: Option<Service>, c: Creation, json: Json): (Api, Option<Service>, Option<Failure>) {
    if !c.hasPorts then (api, stored, Some(BadPorts))
    else if !ValidMembership(c.membership) then (api, stored, Some(Rejected))
    else
      var m := Normalized(c.membership);
      var (api1, missing) := CheckSingleVm(api, m);
      if missing.Some? then (api1, stored, missing)
      else
        var (api2, error) := if m.Group? then Stamp(api1, m.groupId, m.vmNames) else (api1, None);
        if error.Some? then (api2, stored, Some(VmCall(error.value)))
        else
          var thrown := LookupError(stored, c);
          if thrown == None then (UndoStamps(api2, m), stored, Some(Exists))
          else if SaysExists(thrown.value.message) then (api2, stored, Some(LookupFailed))
          else if !IsNotFound(thrown.value.text) then (UndoStamps(api2, m), stored, Some(LookupFailed))
          else if m.Unknown? then (api2, stored, Some(Unsupported))
          else CreateService(api2, stored, m, c, json)
  }

  // ---------------------------------------------------------------- update

  datatype Ports = KeepPorts | GoodPorts | RefusedPorts

  datatype Edit = Edit(membership: Option<Membership>, ports: Ports, readFails: bool, write: WriteFate, rereadFails: bool)

  /** Membership keys of every mode are removed before those of the new one are set. */
  function Rewritten(s: Service, m: Membership, json: Json): Service
    requires !m.Unknown?
  {
    Service(
      s.labels - MEMBERSHIP_LABELS + MembershipLabels(m).value,
      s.annotations - MEMBERSHIP_ANNOTATIONS + MembershipAnnotations(m, json),
      ResolveServiceSelector(m).value)
  }

  /** The last two steps: replace the Service, and read it back for the answer. */
  function Replaced(stored: Option<Service>, body: Service, e: Edit): (Option<Service>, Option<Failure>) {
    match e.write
    case Refused => (stored, Some(WriteFailed))
    case LandsUnheard => (Some(body), Some(WriteFailed))
    case Lands => (Some(body), if e.rereadFails then Some(RereadFailed) else None)
  }

  /** From the check of a single VM to the write. */
  function Move(api: Api, s: Service, next: Membership, e: Edit, json: Json): (Api, Option<Service>, Option<Failure>) {
    var (api1, missing) := CheckSingleVm(api, next);
    if missing.Some? then (api1, Some(s), missing)
    else
      var (api2, error) := UpdateVms(api1, Recorded(s, json), next);
      if error.Some? then (api2, Some(s), Some(VmCall(error.value)))
      else if next.Unknown? then (api2, Some(s), Some(Unsupported))
      else if e.ports == RefusedPorts then (api2, Some(s), Some(BadPorts))
      else
        var (after, failure) := Replaced(Some(s), Rewritten(s, next, json), e);
        (api2, after, failure)
  }

  /** The stamps, then the Service. What the VM calls did stays when the Service is not written. */
  function Update(api: Api, stored: Option<Service>, e: Edit, json: Json): (Api, Option<Service>, Option<Failure>) {
    if e.membership == None && e.ports == KeepPorts then (api, stored, Some(NothingToUpdate))
    else if e.readFails then (api, stored, Some(LookupFailed))
    else if stored == None then (api, stored, Some(NoService))
    else if At(stored.value.labels, RESOURCE_LABEL) != "backend" then (api, stored, Some(NotManaged))
    else if e.membership.Some? && !ValidMembership(e.membership.value) then (api, stored, Some(Rejected))
    else if e.membership == None then
      if e.ports == RefusedPorts then (api, stored, Some(BadPorts))
      else
        var (after, failure) := Replaced(stored, stored.value, e);
        (api, after, failure)
    else
      Move(api, stored.value, Normalized(e.membership.value), e, json)
  }

  // ---------------------------------------------------------------- the code

  /** The console's view of one Service and the VMs of its namespace. */
  class BackendClient {
    const vms: VmClient
    const json: Json
    var stored: Option<Service>

    constructor (vms: VmClient, json: Json)
      ensures this.vms == vms && this.json == json && stored == None
    {
      this.vms, this.json, stored := vms, json, None;
    }

    method EnsureSingleVmExists(m: Membership) returns (failure: Option<Failure>)
      modifies vms
      ensures (vms.api, failure) == CheckSingleVm(old(vms.api), m)
    {
      if m.SingleVm? {
        var fetched := vms.FetchVm(m.vmName);
        if fetched.Missed? {
          return Some(if IsNotFound(fetched.error) then MissingVm else VmCall(fetched.error));
        }
      }
      return None;
    }

    method UndoGroup(m: Membership)
      modifies vms
      ensures vms.api == UndoStamps(old(vms.api), m)
    {
      hide Unstamp;
      if m.Group? {
        var ignored := vms.UnstampBackendGroup(m.vmNames);
      }
    }

    method CreateBackend(c: Creation) returns (failure: Option<Failure>)
      modifies this`stored, vms
      ensures (vms.api, stored, failure) == Create(old(vms.api), old(stored), c, json)
    {
      hide Stamp, UndoStamps, CheckSingleVm, ValidMembership, NormalizedNames, MembershipLabels, MembershipAnnotations, ResolveServiceSelector, Trim;
      if !c.hasPorts { return Some(BadPorts); }
      if !ValidMembership(c.membership) { return Some(Rejected); }
      var m := c.membership;
      if m.Group? {
        m := m.(groupId := Trim(m.groupId, JsSpace), vmNames := NormalizedNames(m.vmNames));
      }
      failure := EnsureSingleVmExists(m);
      if failure.Some? { return; }
      if m.Group? {
        var error := vms.StampBackendGroup(m.groupId, m.vmNames);
        if error.Some? { return Some(VmCall(error.value)); }
      }
      var thrown := LookupError(stored, c);
      if thrown == None {
        UndoGroup(m);
        return Some(Exists);
      }
      if SaysExists(thrown.value.message) { return Some(LookupFailed); }
      if !IsNotFound(thrown.value.text) {
        UndoGroup(m);
        return Some(LookupFailed);
      }
      if m.Unknown? { return Some(Unsupported); }
      if stored.Some? || c.write == Refused {
        UndoGroup(m);
        return Some(WriteFailed);
      }
      stored := Some(Manifest(m, c, json));
      if c.write != Lands {
        UndoGroup(m);
        return Some(WriteFailed);
      }
      return None;
    }

    method UpdateBackend(e: Edit) returns (failure: Option<Failure>)
      modifies this`stored, vms
      ensures (vms.api, stored, failure) == Update(old(vms.api), old(stored), e, json)
    {
      hide UpdateVms, CheckSingleVm, ValidMembership, NormalizedNames, Recorded, Trim, Rewritten;
      if e.membership == None && e.ports == KeepPorts { return Some(NothingToUpdate); }
      if e.readFails { return Some(LookupFailed); }
      if stored == None { return Some(NoService); }
      var body := stored.value;
      if At(body.labels, RESOURCE_LABEL) != "backend" { return Some(NotManaged); }
      var prev := Recorded(body, json);
      var next := e.membership;
      if next.Some? {
        if !ValidMembership(next.value) { return Some(Rejected); }
        if next.value.Group? {
          next := Some(next.value.(groupId := Trim(next.value.groupId, JsSpace), vmNames := NormalizedNames(next.value.vmNames)));
        }
        failure := EnsureSingleVmExists(next.value);
        if failure.Some? { return; }
        var error := vms.UpdateBackendVms(prev, next.value);
        if error.Some? { return Some(VmCall(error.value)); }
        if next.value.Unknown? { return Some(Unsupported); }
        body := RewriteMembership(body, next.value, json);
      }
      if e.ports == RefusedPorts { return Some(BadPorts); }
      if e.write != Refused {
        stored := Some(body);
      }
      if e.write != Lands { return Some(WriteFailed); }
      if e.rereadFails { return Some(RereadFailed); }
      return None;
    }
  }

  /** Deletes the keys of every mode, then assigns the keys of the new one. */
  method RewriteMembership(s: Service, m: Membership, json: Json) returns (body: Service)
    requires !m.Unknown?
    ensures body == Rewritten(s, m, json)
  {
    var labels, annotations := s.labels, s.annotations;
    labels := labels - {KIND_LABEL};
    labels := labels - {VM_LABEL};
    labels := labels - {GROUP_LABEL};
    annotations := annotations - {MATCH_LABELS_ANN};
    annotations := annotations - {MEMBER_VMS_ANN};
    assert labels == s.labels - MEMBERSHIP_LABELS;
    assert annotations == s.annotations - MEMBERSHIP_ANNOTATIONS;
    labels := labels + MembershipLabels(m).value;
    annotations := annotations + MembershipAnnotations(m, json);
    body := Service(labels, annotations, ResolveServiceSelector(m).value);
  }

  // ---------------------------------------------------------------- runs

  /** The Service says m, selects m's pods, and holds no key of another mode. */
  predicate Describes(s: Service, m: Membership, json: Json) {
    && !m.Unknown?
    && (forall k :: k in MEMBERSHIP_LABELS ==>
          (k in s.labels <==> k in MembershipLabels(m).value)
          && (k in s.labels ==> s.labels[k] == MembershipLabels(m).value[k]))
    && (forall k :: k in MEMBERSHIP_ANNOTATIONS ==>
          (k in s.annotations <==> k in MembershipAnnotations(m, json))
          && (k in s.annotations ==> s.annotations[k] == MembershipAnnotations(m, json)[k]))
    && s.selector == ResolveServiceSelector(m).value
  }

  lemma DescribedReadsBack(s: Service, m: Membership, json: Json)
    requires json.Inverse() && Expressible(m) && Describes(s, m, json)
    ensures Recorded(s, json) == m
  {
    ReadBackExactly(m, json);
    assert At(s.labels, KIND_LABEL) == At(MembershipLabels(m).value, KIND_LABEL);
    assert At(s.labels, VM_LABEL) == At(MembershipLabels(m).value, VM_LABEL);
    assert At(s.labels, GROUP_LABEL) == At(MembershipLabels(m).value, GROUP_LABEL);
    assert At(s.annotations, MATCH_LABELS_ANN) == At(MembershipAnnotations(m, json), MATCH_LABELS_ANN);
    assert At(s.annotations, MEMBER_VMS_ANN) == At(MembershipAnnotations(m, json), MEMBER_VMS_ANN);
    hide Kept, Split, Join, GoodName, Expressible;
  }

  lemma ManifestDescribes(m: Membership, c: Creation, json: Json)
    requires !m.Unknown?
    requires c.extraLabels.Keys !! MEMBERSHIP_LABELS && c.extraAnnotations.Keys !! MEMBERSHIP_ANNOTATIONS
    ensures Describes(Manifest(m, c, json), m, json)
  {
    hide Join;
  }

  lemma RewrittenDescribes(s: Service, m: Membership, json: Json)
    requires !m.Unknown?
    ensures Describes(Rewritten(s, m, json), m, json)
    ensures At(Rewritten(s, m, json).labels, RESOURCE_LABEL) == At(s.labels, RESOURCE_LABEL)
    ensures forall k :: k !in MEMBERSHIP_LABELS ==>
              (k in Rewritten(s, m, json).labels <==> k in s.labels)
              && (k in s.labels ==> Rewritten(s, m, json).labels[k] == s.labels[k])
    ensures forall k :: k !in MEMBERSHIP_ANNOTATIONS ==>
              (k in Rewritten(s, m, json).annotations <==> k in s.annotations)
              && (k in s.annotations ==> Rewritten(s, m, json).annotations[k] == s.annotations[k])
  {
    hide Join;
  }

  datatype World = World(api: Api, stored: Option<Service>, last: Membership)

  /** Whether the request got as far as its write, and the write landed, heard of or not. */
  predicate Landed(w: World, e: Edit, json: Json) {
    var failure := Update(w.api, w.stored, e, json).2;
    failure == None || failure == Some(RereadFailed) || (failure == Some(WriteFailed) && e.write == LandsUnheard)
  }

  /** `last` is the membership of the last request whose write landed. */
  function Apply(w: World, e: Edit, json: Json): World {
    var (api, stored, failure) := Update(w.api, w.stored, e, json);
    World(api, stored, if e.membership.Some? && Landed(w, e, json) then Normalized(e.membership.value) else w.last)
  }

  function ApplyAll(w: World, edits: seq<Edit>, json: Json): World
    decreases |edits|
  {
    if edits == [] then w
    else Apply(ApplyAll(w, edits[..|edits| - 1], json), edits[|edits| - 1], json)
  }

  function Created(api: Api, c: Creation, json: Json): World {
    var (api1, stored, _) := Create(api, None, c, json);
    World(api1, stored, Normalized(c.membership))
  }

  /** No member name holds a comma. */
  predicate CommaFree(m: Membership) {
    m.Group? ==> forall n :: n in m.vmNames ==> ',' !in Trim(n, JsSpace)
  }

  predicate EditsCommaFree(edits: seq<Edit>) {
    forall i :: 0 <= i < |edits| && edits[i].membership.Some? ==> CommaFree(edits[i].membership.value)
  }

  predicate InStep(w: World, json: Json) {
    w.stored.Some? && Expressible(w.last) && Describes(w.stored.value, w.last, json)
  }

  /** What the last part of a request does to the Service. */
  lemma MoveService(api: Api, s: Service, next: Membership, e: Edit, json: Json)
    ensures var (_, after, failure) := Move(api, s, next, e, json);
            if failure in {None, Some(RereadFailed)} || (failure == Some(WriteFailed) && e.write == LandsUnheard)
            then !next.Unknown? && after == Some(Rewritten(s, next, json))
            else after == Some(s)
  {
    CheckFailure(api, next);
    hide UpdateVms, CheckSingleVm, Recorded, Rewritten;
  }

  /** A landed request wrote the rewritten Service. */
  lemma LandedService(w: World, e: Edit, json: Json)
    requires w.stored.Some? && e.membership.Some? && Landed(w, e, json)
    ensures var next := Normalized(e.membership.value);
            && !next.Unknown? && ValidMembership(e.membership.value)
            && Update(w.api, w.stored, e, json).1 == Some(Rewritten(w.stored.value, next, json))
  {
    MoveService(w.api, w.stored.value, Normalized(e.membership.value), e, json);
    hide Move, ValidMembership, Normalized, Rewritten, At;
  }

  /** Any other request left the Service as it was. */
  lemma OtherwiseSame(w: World, e: Edit, json: Json)
    requires w.stored.Some? && (e.membership.Some? ==> !Landed(w, e, json))
    ensures Update(w.api, w.stored, e, json).1 == w.stored
  {
    if e.membership.Some? {
      MoveService(w.api, w.stored.value, Normalized(e.membership.value), e, json);
    }
    hide Move, ValidMembership, Normalized, Rewritten, At;
  }

  lemma ApplyInStep(w: World, e: Edit, json: Json)
    requires InStep(w, json) && (e.membership.Some? ==> CommaFree(e.membership.value))
    ensures InStep(Apply(w, e, json), json)
  {
    if e.membership.Some? && Landed(w, e, json) {
      var next := Normalized(e.membership.value);
      LandedService(w, e, json);
      NormalizedMode(e.membership.value);
      ValidatedExpressibleExactly(e.membership.value);
      RewrittenDescribes(w.stored.value, next, json);
      hide Update, Landed, Rewritten, Describes, Expressible, Normalized, ValidMembership, CommaFree;
    } else {
      OtherwiseSame(w, e, json);
      hide Update, Landed, Describes, Expressible, CommaFree;
    }
  }

  lemma NormalizedMode(m: Membership)
    ensures Normalized(m).Unknown? <==> m.Unknown?
  {
    hide NormalizedNames, Trim;
  }

  /**
   * After a create and any run of updates, whichever of them fail and wherever, the
   * Service reads back as the last membership written, selects exactly the pods of
   * that membership, and carries no key of an earlier mode.
   */
  lemma {:induction false} RunsReadBack(api: Api, c: Creation, edits: seq<Edit>, json: Json)
    requires json.Inverse() && Create(api, None, c, json).2 == None && CommaFree(c.membership) && EditsCommaFree(edits)
    requires c.extraLabels.Keys !! MEMBERSHIP_LABELS && c.extraAnnotations.Keys !! MEMBERSHIP_ANNOTATIONS
    ensures var w := ApplyAll(Created(api, c, json), edits, json);
            && InStep(w, json) && Recorded(w.stored.value, json) == w.last
            && Some(w.stored.value.selector) == ResolveServiceSelector(w.last)
    decreases |edits|
  {
    if edits == [] {
      CreatedInStep(api, c, json);
    } else {
      var front := edits[..|edits| - 1];
      assert EditsCommaFree(front);
      RunsReadBack(api, c, front, json);
      ApplyInStep(ApplyAll(Created(api, c, json), front, json), edits[|edits| - 1], json);
    }
    hide Apply, Created, CommaFree, EditsCommaFree;
    var w := ApplyAll(Created(api, c, json), edits, json);
    DescribedReadsBack(w.stored.value, w.last, json);
  }

  lemma CreatedInStep(api: Api, c: Creation, json: Json)
    requires Create(api, None, c, json).2 == None && CommaFree(c.membership)
    requires c.extraLabels.Keys !! MEMBERSHIP_LABELS && c.extraAnnotations.Keys !! MEMBERSHIP_ANNOTATIONS
    ensures InStep(Created(api, c, json), json)
  {
    CreatedManifest(api, c, json);
    hide Create, Manifest, Describes, Expressible, Normalized, ValidMembership;
    ValidatedExpressibleExactly(c.membership);
    ManifestDescribes(Normalized(c.membership), c, json);
    NormalizedMode(c.membership);
  }

  /** A create that succeeds has stored the manifest of a valid membership. */
  lemma CreatedManifest(api: Api, c: Creation, json: Json)
    requires Create(api, None, c, json).2 == None
    ensures ValidMembership(c.membership) && !Normalized(c.membership).Unknown?
    ensures Create(api, None, c, json).1 == Some(Manifest(Normalized(c.membership), c, json))
  {
    hide Stamp, CheckSingleVm, UndoStamps, Manifest, ValidMembership, Normalized, LookupError, SaysExists, IsNotFound;
  }

  // ---------------------------------------------------------------- stamps follow the record

  predicate AllSucceed(w: World, edits: seq<Edit>, json: Json)
    decreases |edits|
  {
    edits == [] ||
    (AllSucceed(w, edits[..|edits| - 1], json)
     && var v := ApplyAll(w, edits[..|edits| - 1], json);
        Update(v.api, v.stored, edits[|edits| - 1], json).2 == None)
  }

  lemma CreateStamps(api: Api, c: Creation, json: Json)
    requires Create(api, None, c, json).2 == None
    ensures StampedAsRecorded(Created(api, c, json).api, Normalized(c.membership))
  {
    var m := Normalized(c.membership);
    if m.Group? {
      assert m.groupId != "" && Stamp(api, m.groupId, m.vmNames).1 == None
        && Created(api, c, json).api == Stamp(api, m.groupId, m.vmNames).0 by {
        hide Stamp, UndoStamps, Manifest, NormalizedNames, Trim;
      }
      StampEffect(api, m.groupId, m.vmNames);
      hide Create, Created, Stamp, Normalized, Overlay, Marked;
      var after := Stamp(api, m.groupId, m.vmNames).0.vms;
      forall v | v in m.vmNames && v in after ensures InGroup(after[v], m.groupId) {
        OverlayAt(api.vms, m.vmNames, Some(m.groupId), v);
        MarkedMeaning(api.vms[v], m.groupId);
      }
    }
  }

  /** A move to a group that succeeds stamps as it will be recorded. */
  lemma MoveStamps(api: Api, prev: Membership, next: Membership)
    requires next.Group? && next.groupId != "" && StampedAsRecorded(api, prev)
    requires UpdateVms(api, prev, next).1 == None
    ensures StampedAsRecorded(UpdateVms(api, prev, next).0, next)
  {
    UpdateKeepsVms(api, prev, next);
    var after := UpdateVms(api, prev, next).0;
    hide UpdateVms, InGroup, ClearedOrMissed, SameButGroup;
    forall v | v in next.vmNames && v in after.vms ensures InGroup(after.vms[v], next.groupId) {
      UpdateMovesGroup(api, prev, next, v);
    }
    StampedIf(after, next);
  }

  /** What the last part of a request did to the VMs when it got past them. */
  lemma MoveVms(api: Api, s: Service, next: Membership, e: Edit, json: Json)
    requires Move(api, s, next, e, json).2 in {None, Some(RereadFailed), Some(BadPorts), Some(WriteFailed)}
    ensures var api1 := CheckSingleVm(api, next).0;
            && UpdateVms(api1, Recorded(s, json), next).1 == None
            && Move(api, s, next, e, json).0 == UpdateVms(api1, Recorded(s, json), next).0
    ensures CheckSingleVm(api, next).0.vms == api.vms && Within(CheckSingleVm(api, next).0, api.faults)
    ensures !next.SingleVm? ==> CheckSingleVm(api, next).0 == api
  {
    CheckFailure(api, next);
    ConsumedWithin(api, api.faults);
    assert CheckSingleVm(api, next).0.vms == api.vms && Within(CheckSingleVm(api, next).0, api.faults) by {
      hide IsNotFound, UpdateVms, Move;
    }
    assert !next.SingleVm? ==> CheckSingleVm(api, next).0 == api;
    hide UpdateVms, CheckSingleVm, Recorded, Rewritten;
  }

  lemma GroupIdKept(m: Membership)
    requires ValidMembership(m)
    ensures Normalized(m).Group? ==> Normalized(m).groupId != ""
  {
    hide NormalizedNames, Trim;
  }

  /** A request that succeeds went through the VM calls of its mode. */
  lemma SuccessfulUpdate(w: World, e: Edit, json: Json)
    requires w.stored.Some? && Update(w.api, w.stored, e, json).2 == None && e.membership.Some?
    ensures var prev, next := Recorded(w.stored.value, json), Normalized(e.membership.value);
            && (next.Group? ==> next.groupId != "" && UpdateVms(w.api, prev, next).1 == None
                                && Update(w.api, w.stored, e, json).0 == UpdateVms(w.api, prev, next).0)
  {
    assert Update(w.api, w.stored, e, json) == Move(w.api, w.stored.value, Normalized(e.membership.value), e, json)
      && ValidMembership(e.membership.value) by {
      hide Move, ValidMembership, Normalized, At;
    }
    MoveVms(w.api, w.stored.value, Normalized(e.membership.value), e, json);
    GroupIdKept(e.membership.value);
    hide Update, Move, UpdateVms, CheckSingleVm, Normalized, Recorded, ValidMembership;
  }

  lemma UpdateStamps(w: World, e: Edit, json: Json)
    requires InStep(w, json) && json.Inverse() && StampedAsRecorded(w.api, w.last)
    requires Update(w.api, w.stored, e, json).2 == None
    ensures StampedAsRecorded(Apply(w, e, json).api, Apply(w, e, json).last)
  {
    DescribedReadsBack(w.stored.value, w.last, json);
    if e.membership.Some? {
      var next := Normalized(e.membership.value);
      SuccessfulUpdate(w, e, json);
      assert Apply(w, e, json).last == next && Apply(w, e, json).api == Update(w.api, w.stored, e, json).0;
      hide Update, Apply, UpdateVms, Normalized, InStep, Recorded;
      if next.Group? {
        hide StampedAsRecorded;
        MoveStamps(w.api, w.last, next);
      }
    } else {
      assert Apply(w, e, json).api == w.api;
    }
  }

  lemma StampedIf(api: Api, m: Membership)
    requires m.Group? && forall v :: v in m.vmNames && v in api.vms ==> InGroup(api.vms[v], m.groupId)
    ensures StampedAsRecorded(api, m)
  {
  }

  /**
   * While the requests succeed, whatever calls had to be retried on the way, every
   * member the Service records carries the recorded group id.
   */
  lemma {:induction false} RunsKeepStamps(api: Api, c: Creation, edits: seq<Edit>, json: Json)
    requires json.Inverse() && Create(api, None, c, json).2 == None && CommaFree(c.membership) && EditsCommaFree(edits)
    requires c.extraLabels.Keys !! MEMBERSHIP_LABELS && c.extraAnnotations.Keys !! MEMBERSHIP_ANNOTATIONS
    requires AllSucceed(Created(api, c, json), edits, json)
    ensures var w := ApplyAll(Created(api, c, json), edits, json);
            w.stored.Some? && StampedAsRecorded(w.api, Recorded(w.stored.value, json))
    decreases |edits|
  {
    RunsReadBack(api, c, edits, json);
    if edits == [] {
      CreateStamps(api, c, json);
    } else {
      var front := edits[..|edits| - 1];
      assert EditsCommaFree(front);
      RunsReadBack(api, c, front, json);
      RunsKeepStamps(api, c, front, json);
      UpdateStamps(ApplyAll(Created(api, c, json), front, json), edits[|edits| - 1], json);
    }
  }

  function NextNames(m: Membership): seq<string> {
    if m.Group? then m.vmNames else []
  }

  /** A request refused after its VM calls: ports not accepted, or the write refused. */
  predicate LateFailure(w: World, e: Edit, json: Json) {
    && e.membership.Some? && !Landed(w, e, json)
    && Update(w.api, w.stored, e, json).2 in {Some(BadPorts), Some(WriteFailed)}
  }

  /** Its VM calls went through, and the Service is as before. */
  lemma LateFailureSteps(w: World, e: Edit, json: Json)
    requires w.stored.Some? && LateFailure(w, e, json)
    ensures var prev, next := Recorded(w.stored.value, json), Normalized(e.membership.value);
            var api1 := CheckSingleVm(w.api, next).0;
            && (next.Group? ==> next.groupId != "")
            && UpdateVms(api1, prev, next).1 == None
            && Update(w.api, w.stored, e, json).0 == UpdateVms(api1, prev, next).0
            && Update(w.api, w.stored, e, json).1 == w.stored
            && api1.vms == w.api.vms && Within(api1, w.api.faults)
  {
    var next := Normalized(e.membership.value);
    assert Update(w.api, w.stored, e, json) == Move(w.api, w.stored.value, next, e, json) && ValidMembership(e.membership.value) by {
      hide Move, ValidMembership, Normalized, At;
    }
    MoveVms(w.api, w.stored.value, next, e, json);
    OtherwiseSame(w, e, json);
    GroupIdKept(e.membership.value);
    hide Update, Move, UpdateVms, CheckSingleVm, Normalized, Recorded, ValidMembership, Landed;
  }

  /**
   * Stamps are not undone when a later step of the same update fails: the Service
   * still records the old membership while the VMs follow the refused one.
   */
  lemma LateFailureMovesVms(w: World, e: Edit, json: Json, v: string)
    requires InStep(w, json) && json.Inverse() && StampedAsRecorded(w.api, w.last)
    requires LateFailure(w, e, json) && v in w.api.vms
    ensures var (api, stored, _) := Update(w.api, w.stored, e, json);
            var prevNames, nextNames := PrevNames(w.last), NextNames(Normalized(e.membership.value));
            && stored == w.stored && Recorded(stored.value, json) == w.last
            && api.vms.Keys == w.api.vms.Keys
            && (v in nextNames ==> InGroup(api.vms[v], Normalized(e.membership.value).groupId) && SameButGroup(api.vms[v], w.api.vms[v]))
            && (v in prevNames && v !in nextNames ==> ClearedOrMissed(w.api.vms[v], api.vms[v], w.api.faults, v))
            && (v !in prevNames && v !in nextNames ==> api.vms[v] == w.api.vms[v])
  {
    DescribedReadsBack(w.stored.value, w.last, json);
    LateFailureSteps(w, e, json);
    var next := Normalized(e.membership.value);
    var api1 := CheckSingleVm(w.api, next).0;
    hide Update, UpdateVms, CheckSingleVm, Normalized, InStep, Recorded, StampedAsRecorded, Marked, LateFailure;
    assert StampedAsRecorded(api1, w.last) by { SameStamps(w.api, api1, w.last); }
    MissedLater(api1.faults, w.api.faults, v);
    if next.Group? {
      UpdateMovesGroup(api1, w.last, next, v);
    } else if w.last.Group? {
      LeavingClears(api1, w.last, next, v);
    } else {
      NothingToDo(api1, w.last, next);
    }
  }

  lemma SameStamps(a: Api, b: Api, m: Membership)
    requires a.vms == b.vms && StampedAsRecorded(a, m)
    ensures StampedAsRecorded(b, m)
  {
  }

  lemma MissedLater(later: seq<Fault>, faults: seq<Fault>, v: string)
    requires forall f :: f in later ==> f in faults
    ensures Swallowed(later, v) ==> Swallowed(faults, v)
  {
  }

  lemma NothingToDo(api: Api, prev: Membership, next: Membership)
    requires !prev.Group? && !next.Group?
    ensures UpdateVms(api, prev, next) == (api, None)
  {
  }

  lemma SameGroupSame(x: Vm, y: Vm, id: string)
    requires SameButGroup(x, y) && InGroup(x, id) && InGroup(y, id)
    ensures x == y
  {
    assert x.labels == (x.labels - {GROUP_LABEL})[GROUP_LABEL := id];
    assert y.labels == (y.labels - {GROUP_LABEL})[GROUP_LABEL := id];
    assert x.templateLabels == (x.templateLabels - {GROUP_LABEL})[GROUP_LABEL := id];
    assert y.templateLabels == (y.templateLabels - {GROUP_LABEL})[GROUP_LABEL := id];
  }

  lemma NoneSwallowed(api: Api, v: string)
    requires AllFine(api)
    ensures !Swallowed(api.faults, v)
  {
  }

  /** One VM is as before exactly when it was where the refused request would put it. */
  lemma LateFailureSparesVm(w: World, e: Edit, json: Json, v: string)
    requires InStep(w, json) && json.Inverse() && StampedAsRecorded(w.api, w.last)
    requires LateFailure(w, e, json) && AllFine(w.api) && v in w.api.vms
    ensures var next := Normalized(e.membership.value);
            && v in Update(w.api, w.stored, e, json).0.vms
            && (Update(w.api, w.stored, e, json).0.vms[v] == w.api.vms[v]
                <==> if v in NextNames(next) then InGroup(w.api.vms[v], next.groupId)
                     else v in PrevNames(w.last) ==> Ungrouped(w.api.vms[v]))
  {
    LateFailureMovesVms(w, e, json, v);
    NoneSwallowed(w.api, v);
    var next, after := Normalized(e.membership.value), Update(w.api, w.stored, e, json).0.vms[v];
    MarkedMeaning(w.api.vms[v], "");
    hide Update, Normalized, InStep, Recorded, StampedAsRecorded, Marked, LateFailure, Swallowed, Ungrouped;
    if v in NextNames(next) && InGroup(w.api.vms[v], next.groupId) {
      SameGroupSame(after, w.api.vms[v], next.groupId);
    }
  }

  /**
   * With every VM call going through, a late failure changes no VM exactly when each
   * next member already carries the next id and no dropped member a group label.
   */
  lemma LateFailureSparesExactly(w: World, e: Edit, json: Json)
    requires InStep(w, json) && json.Inverse() && StampedAsRecorded(w.api, w.last)
    requires LateFailure(w, e, json) && AllFine(w.api)
    ensures var next := Normalized(e.membership.value);
            Update(w.api, w.stored, e, json).0.vms == w.api.vms
            <==> (forall v :: v in w.api.vms && v in NextNames(next) ==> InGroup(w.api.vms[v], next.groupId))
                 && (forall v :: v in w.api.vms && v in PrevNames(w.last) && v !in NextNames(next) ==> Ungrouped(w.api.vms[v]))
  {
    var after := Update(w.api, w.stored, e, json).0.vms;
    LateFailureKeepsKeys(w, e, json);
    forall v | v in w.api.vms
      ensures v in after
      ensures after[v] == w.api.vms[v] <==> if v in NextNames(Normalized(e.membership.value))
                                            then InGroup(w.api.vms[v], Normalized(e.membership.value).groupId)
                                            else v in PrevNames(w.last) ==> Ungrouped(w.api.vms[v])
    {
      LateFailureSparesVm(w, e, json, v);
    }
    hide Update, Normalized, InStep, StampedAsRecorded, LateFailure, Ungrouped, InGroup, NextNames, PrevNames;
  }

  lemma LateFailureKeepsKeys(w: World, e: Edit, json: Json)
    requires InStep(w, json) && json.Inverse() && LateFailure(w, e, json)
    ensures Update(w.api, w.stored, e, json).0.vms.Keys == w.api.vms.Keys
  {
    DescribedReadsBack(w.stored.value, w.last, json);
    LateFailureSteps(w, e, json);
    var next := Normalized(e.membership.value);
    var api1 := CheckSingleVm(w.api, next).0;
    hide Update, CheckSingleVm, Normalized, InStep, Recorded, LateFailure;
    if next.Group? {
      UpdateKeepsVms(api1, w.last, next);
    } else if w.last.Group? {
      UnstampEffect(api1, w.last.vmNames, api1.faults);
    }
  }

  // ---------------------------------------------------------------- what a create leaves behind

  /** The lookup throws an error that is taken for the function's own. */
  predicate Mistaken(c: Creation) {
    c.lookup.Threw? && SaysExists(c.lookup.message)
  }

  /** A create whose VM calls go through, up to and including the stamps. */
  predicate Clean(api: Api, c: Creation) {
    && c.hasPorts && c.membership.Group? && ValidMembership(c.membership) && AllFine(api)
    && forall n :: n in NormalizedNames(c.membership.vmNames) ==> n in api.vms
  }

  /** What becomes of the VMs: stamped, or stamped and cleared. */
  lemma CleanCreate(api: Api, stored: Option<Service>, c: Creation, json: Json)
    requires Clean(api, c)
    ensures var m := Normalized(c.membership);
            var (api2, error) := Stamp(api, m.groupId, m.vmNames);
            && m.Group? && m.groupId != "" && m.vmNames == NormalizedNames(c.membership.vmNames) && error == None
            && Create(api, stored, c, json)
               == (var thrown := LookupError(stored, c);
                   if thrown == None then (UndoStamps(api2, m), stored, Some(Exists))
                   else if SaysExists(thrown.value.message) then (api2, stored, Some(LookupFailed))
                   else if !IsNotFound(thrown.value.text) then (UndoStamps(api2, m), stored, Some(LookupFailed))
                   else CreateService(api2, stored, m, c, json))
  {
    var m := Normalized(c.membership);
    CleanStamp(api, m.groupId, m.vmNames);
    StampCount(api, m.groupId, m.vmNames);
    hide StampAll, Unstamp, NormalizedNames, Trim, CreateService, AllFine, SaysExists, IsNotFound, MissingText;
  }

  /** One VM after the stamps, and after their undo. */
  lemma StampedAndCleared(api: Api, m: Membership, v: string)
    requires AllFine(api) && m.Group? && m.groupId != "" && (forall n :: n in m.vmNames ==> n in api.vms) && v in api.vms
    ensures var stamped := Stamp(api, m.groupId, m.vmNames).0;
            var cleared := UndoStamps(stamped, m);
            && v in stamped.vms && v in cleared.vms
            && stamped.vms.Keys == cleared.vms.Keys == api.vms.Keys
            && stamped.vms[v] == (if v in m.vmNames then Marked(api.vms[v], Some(m.groupId)) else api.vms[v])
            && cleared.vms[v] == (if v in m.vmNames then Marked(api.vms[v], None) else api.vms[v])
  {
    CleanStamp(api, m.groupId, m.vmNames);
    StampCount(api, m.groupId, m.vmNames);
    var stamped := StampAll(api, m.groupId, m.vmNames).0;
    assert Stamp(api, m.groupId, m.vmNames) == (stamped, None);
    StampEffect(api, m.groupId, m.vmNames);
    hide Stamp, StampAll, Unstamp, AllFine, Overlay, Marked;
    OverlayAt(api.vms, m.vmNames, Some(m.groupId), v);
    forall n | n in m.vmNames ensures n in stamped.vms {
      OverlayAt(api.vms, m.vmNames, Some(m.groupId), n);
    }
    CleanUnstamp(stamped, m.vmNames);
    OverlayAt(stamped.vms, m.vmNames, None, v);
    MarkedTwice(api.vms[v], Some(m.groupId), None);
  }

  /**
   * Creating a group over a Service that exists is refused, but not without effect:
   * the undo clears the group label of every named VM, also of those that carried
   * it before, as members of that very Service. A lookup error that says "already
   * exists" leaves them stamped instead.
   */
  lemma DuplicateCreateClearsMembers(api: Api, stored: Option<Service>, c: Creation, json: Json, v: string)
    requires stored.Some? && Clean(api, c) && v in api.vms
    ensures var (after, kept, failure) := Create(api, stored, c, json);
            && kept == stored && failure.Some?
            && v in after.vms && after.vms.Keys == api.vms.Keys
            && after.vms[v] == if v !in NormalizedNames(c.membership.vmNames) then api.vms[v]
                               else Marked(api.vms[v], if Mistaken(c) then Some(Normalized(c.membership).groupId) else None)
  {
    CleanCreate(api, stored, c, json);
    StampedAndCleared(api, Normalized(c.membership), v);
    hide Create, Stamp, UndoStamps, Normalized, NormalizedNames, AllFine, Marked, SaysExists, IsNotFound, ValidMembership;
  }

  /**
   * It leaves all VMs as they were exactly when none of the named ones was in a group,
   * or, with such a lookup error, when all were in the new one.
   */
  lemma DuplicateCreateSparesExactly(api: Api, stored: Option<Service>, c: Creation, json: Json)
    requires stored.Some? && Clean(api, c)
    ensures Create(api, stored, c, json).0.vms == api.vms
       <==> forall n :: n in NormalizedNames(c.membership.vmNames) ==>
              if Mistaken(c) then InGroup(api.vms[n], Normalized(c.membership).groupId) else Ungrouped(api.vms[n])
  {
    hide Create, Normalized, NormalizedNames, Marked, Ungrouped, InGroup, Mistaken;
    DuplicateCreateKeepsKeys(api, stored, c, json);
    CleanGroup(api, c);
    forall v | v in api.vms
      ensures v in Create(api, stored, c, json).0.vms
      ensures Create(api, stored, c, json).0.vms[v] == api.vms[v]
         <==> (v in NormalizedNames(c.membership.vmNames) ==>
                 if Mistaken(c) then InGroup(api.vms[v], Normalized(c.membership).groupId) else Ungrouped(api.vms[v]))
    {
      DuplicateCreateSparesVm(api, stored, c, json, v);
    }
    hide Clean;
  }

  lemma DuplicateCreateSparesVm(api: Api, stored: Option<Service>, c: Creation, json: Json, v: string)
    requires stored.Some? && Clean(api, c) && v in api.vms
    ensures v in Create(api, stored, c, json).0.vms
    ensures Create(api, stored, c, json).0.vms[v] == api.vms[v]
       <==> (v in NormalizedNames(c.membership.vmNames) ==>
               if Mistaken(c) then InGroup(api.vms[v], Normalized(c.membership).groupId) else Ungrouped(api.vms[v]))
  {
    DuplicateCreateClearsMembers(api, stored, c, json, v);
    MarkedMeaning(api.vms[v], "");
    CarriesExactly(api.vms[v], Normalized(c.membership).groupId);
    hide Create, Normalized, NormalizedNames, Marked, Ungrouped, InGroup, Mistaken, Clean;
    CleanGroup(api, c);
  }

  lemma CleanGroup(api: Api, c: Creation)
    requires Clean(api, c)
    ensures Normalized(c.membership).Group? && Normalized(c.membership).groupId != ""
  {
    GroupIdKept(c.membership);
    hide NormalizedNames, Trim, AllFine;
  }

  lemma DuplicateCreateKeepsKeys(api: Api, stored: Option<Service>, c: Creation, json: Json)
    requires stored.Some? && Clean(api, c)
    ensures Create(api, stored, c, json).0.vms.Keys == api.vms.Keys
  {
    hide Create, Normalized, NormalizedNames, Marked, Mistaken, Clean;
    if v: string :| v in api.vms {
      DuplicateCreateClearsMembers(api, stored, c, json, v);
    } else {
      assert api.vms == map[];
      NoVms(api, stored, c, json);
    }
  }

  lemma NoVms(api: Api, stored: Option<Service>, c: Creation, json: Json)
    requires stored.Some? && Clean(api, c) && api.vms == map[]
    ensures Create(api, stored, c, json).0.vms == map[]
  {
    CleanCreate(api, stored, c, json);
    var m := Normalized(c.membership);
    StampEffect(api, m.groupId, m.vmNames);
    var stamped := Stamp(api, m.groupId, m.vmNames).0;
    OverlayAt(api.vms, m.vmNames, Some(m.groupId), "");
    UnstampEffect(stamped, m.vmNames, stamped.faults);
    hide Create, Stamp, Unstamp, Normalized, NormalizedNames, AllFine, Overlay, SaysExists, IsNotFound, ValidMembership;
  }

  /**
   * A create of a new group that hears of its write leaves the members stamped. One
   * that does not clears them, and when the write has landed unheard, the Service is
   * there and selects none of them.
   */
  lemma CreateStampsExactly(api: Api, c: Creation, json: Json, v: string)
    requires Clean(api, c) && c.lookup.Answered? && ' ' !in c.name
    requires v in NormalizedNames(c.membership.vmNames)
    ensures var (after, stored, failure) := Create(api, None, c, json);
            var m := Normalized(c.membership);
            && (failure == None <==> c.write == Lands)
            && stored == (if c.write == Refused then None else Some(Manifest(m, c, json)))
            && v in after.vms && (if c.write == Lands then InGroup(after.vms[v], m.groupId) else Ungrouped(after.vms[v]))
            && Manifest(m, c, json).selector == map[GROUP_LABEL := m.groupId]
  {
    var m := Normalized(c.membership);
    CleanCreate(api, None, c, json);
    MissingSaysNothing(c.name);
    MissingIsNotFound(c.name);
    assert v in m.vmNames;
    hide Create, Stamp, UndoStamps, Normalized, NormalizedNames, AllFine, Marked, SaysExists, IsNotFound, MissingText, ValidMembership, InGroup, Ungrouped;
    StampedAndCleared(api, m, v);
    MarkedMeaning(api.vms[v], m.groupId);
  }
}
