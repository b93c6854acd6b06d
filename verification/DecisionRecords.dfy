/** Evidence versions, registered artifacts, and what a decision may refer to: the checks
    made before an evidence, artifact or decision event is accepted. */
module DecisionRecords {
  import opened Outcome
  import opened Ledger
  import E = Evaluator
  import R = Rules

  /** The row an evidence item leaves; it becomes available when its event is recorded. */
  datatype EvidenceRow = EvidenceRow(
    version: string,
    account: string,
    kind: string,
    value: R.Scalar,
    source: string,
    observedAt: Option<int>,
    basis: Option<seq<string>>,
    availableAt: int,
    supersedes: Option<string>,
    minted: EventId)

  function RowOf(e: Event, item: EvidenceItem): EvidenceRow
    requires e.body.EvidenceRecorded?
  {
    EvidenceRow(
      item.version, e.account, item.kind, item.value, e.body.source, item.observedAt, item.basis,
      e.recordedAt, item.supersedes, e.id)
  }

  function FindItem(items: seq<EvidenceItem>, version: string): (r: Option<EvidenceItem>)
    ensures r.Some? ==> r.value in items && r.value.version == version
    ensures r.None? ==> forall i :: 0 <= i < |items| ==> items[i].version != version
  {
    if items == [] then None
    else if items[0].version == version then Some(items[0])
    else FindItem(items[1..], version)
  }

  /** The stored evidence version with this id. */
  function FindVersion(l: Ledger, version: string): (r: Option<EvidenceRow>)
    ensures r.Some? ==> r.value.version == version
  {
    if l == [] then None
    else
      var before := FindVersion(l[..|l| - 1], version);
      var last := l[|l| - 1];
      if before.Some? then before
      else if last.body.EvidenceRecorded? then
        match FindItem(last.body.items, version)
        case Some(item) => Some(RowOf(last, item))
        case None => None
      else None
  }

  predicate RegisteredAt(l: Ledger, i: int, a: E.Artifact) {
    0 <= i < |l| && l[i].body.ArtifactRegistered? && l[i].body.artifact == a
  }

  predicate Registered(l: Ledger, a: E.Artifact) {
    exists i :: 0 <= i < |l| && RegisteredAt(l, i, a)
  }

  // --- What an event may refer to ------------------------------------------------------------

  /** A registered artifact id and logic version mean one content. */
  function CheckArtifact(l: Ledger, a: E.Artifact): Outcome<()> {
    if Registered(l, a) then Done(())
    else
      Require(
        forall i :: 0 <= i < |l| && l[i].body.ArtifactRegistered? ==>
          l[i].body.artifact.id != a.id || l[i].body.artifact.logicVersion != a.logicVersion,
        "logic_artifact_identity_reused_with_different_content")
  }

  /** A version is minted once, and a correction follows a stored version of its account and type. */
  function CheckItem(l: Ledger, e: Event, item: EvidenceItem): Outcome<()>
    requires e.body.EvidenceRecorded?
  {
    match FindVersion(l, item.version)
    case Some(stored) =>
      Refused(
        if RowOf(e, item).(minted := stored.minted) == stored then "evidence_version_already_minted"
        else "evidence_version_id_reused_with_different_content")
    case None =>
      match item.supersedes
      case None => Done(())
      case Some(superseded) =>
        var target := FindVersion(l, superseded);
        var _ :- Require(target.Some?, "unknown_superseded_evidence_version");
        var _ :- Require(target.value.account == e.account, "superseded_evidence_belongs_to_another_account");
        var _ :- Require(target.value.kind == item.kind, "superseded_evidence_has_a_different_type");
        Require(target.value.availableAt <= e.recordedAt, "superseded_evidence_is_later")
  }

  function CheckItems(l: Ledger, e: Event, items: seq<EvidenceItem>): Outcome<()>
    requires e.body.EvidenceRecorded?
  {
    if items == [] then Done(())
    else
      var _ :- CheckItem(l, e, items[0]);
      CheckItems(l, e, items[1..])
  }

  /** A preserved value is what an evidence version of the account recorded for this input,
      available by the boundary. */
  function CheckReference(
    l: Ledger, account: string, boundary: int, key: string, version: string, value: R.Scalar): Outcome<()>
  {
    var row := FindVersion(l, version);
    var _ :- Require(row.Some?, "unknown_evidence_version");
    var _ :- Require(row.value.account == account, "evidence_version_belongs_to_another_account");
    var _ :- Require(row.value.availableAt <= boundary, "evidence_version_available_after_the_boundary");
    var _ :- Require(row.value.kind == key, "evidence_type_does_not_match_input_key");
    Require(row.value.value == value, "preserved_value_does_not_match_the_evidence_version")
  }

  function CheckContext(l: Ledger, account: string, boundary: int, context: seq<ContextEntry>): Outcome<()> {
    if context == [] then Done(())
    else
      var x := context[0];
      var _ :-
        if x.available && x.version.Some? then CheckReference(l, account, boundary, x.key, x.version.value, x.value)
        else Done(());
      CheckContext(l, account, boundary, context[1..])
  }

  function CheckConsumed(l: Ledger, account: string, boundary: int, consumed: seq<UsedInput>): Outcome<()> {
    if consumed == [] then Done(())
    else
      var x := consumed[0];
      var _ :- CheckReference(l, account, boundary, x.key, x.version, x.value);
      CheckConsumed(l, account, boundary, consumed[1..])
  }

  /** Every reference resolves and the logic identity is the registered artifact's. Nothing
      is evaluated here. */
  function CheckDecision(l: Ledger, e: Event): Outcome<()>
    requires e.body.Decided?
  {
    var r := e.body.record;
    var _ :- CheckContext(l, e.account, e.body.boundary, r.context);
    var _ :- CheckConsumed(l, e.account, e.body.boundary, r.consumed);
    var _ :- Require(Registered(l, r.artifact), "unregistered_logic_artifact");
    Require(
      && r.artifact.id == r.artifactId && r.artifact.logicVersion == r.logicVersion
      && r.artifact.evaluatorVersion == r.evaluatorVersion && r.artifact.kind == e.body.kind,
      "logic_artifact_identity_mismatch")
  }

  // --- Stored rows never change ----------------------------------------------------------------

  lemma {:induction false} VersionKept(l: Ledger, more: Ledger, version: string)
    ensures FindVersion(l, version).Some? ==> FindVersion(l + more, version) == FindVersion(l, version)
    decreases |more|
  {
    if more == [] {
      assert l + more == l;
    } else {
      VersionKept(l, more[..|more| - 1], version);
      assert (l + more)[..|l + more| - 1] == l + more[..|more| - 1];
    }
  }

  lemma RegisteredKept(l: Ledger, more: Ledger, a: E.Artifact)
    requires Registered(l, a)
    ensures Registered(l + more, a)
  {
    var i :| 0 <= i < |l| && RegisteredAt(l, i, a);
    assert RegisteredAt(l + more, i, a);
  }

  /** What a checked reference found. */
  ghost predicate Refers(l: Ledger, account: string, boundary: int, key: string, version: string, value: R.Scalar) {
    var row := FindVersion(l, version);
    && row.Some?
    && row.value.account == account && row.value.availableAt <= boundary
    && row.value.kind == key && row.value.value == value
  }

  lemma {:induction false} ContextRefers(
    l: Ledger, account: string, boundary: int, context: seq<ContextEntry>, x: ContextEntry)
    requires CheckContext(l, account, boundary, context).Done? && x in context && x.available && x.version.Some?
    ensures Refers(l, account, boundary, x.key, x.version.value, x.value)
  {
    hide FindVersion;
    if x != context[0] {
      ContextRefers(l, account, boundary, context[1..], x);
    }
  }

  lemma RefersKept(
    l: Ledger, more: Ledger, account: string, boundary: int, key: string, version: string, value: R.Scalar)
    requires Refers(l, account, boundary, key, version, value)
    ensures Refers(l + more, account, boundary, key, version, value)
    ensures FindVersion(l + more, version) == FindVersion(l, version)
  {
    hide FindVersion;
    VersionKept(l, more, version);
  }
}
