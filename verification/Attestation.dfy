/** Finalizing and verifying an audit directory: scripts/verify_personal_detail_final_audit.py. A directory maps the
    relative paths of its files to their bytes. */
module Attestation {
  import opened Options
  import opened JsonValue

  type Byte = n: nat | n < 256

  type Bytes = seq<Byte>

  type Directory = map<string, Bytes>

  /** A contract case; live cases also have a saved pair of reports. */
  datatype Case = Case(id: string, slug: string, node: string)

  /** The outside world: the JSON codec, SHA-256, `str()` on values that are not strings, and the saved-pair validation. */
  datatype World = World(
    encode: Json -> Bytes, decode: Bytes -> Option<Json>, hash: Bytes -> string, show: Json -> string,
    report: (Directory, Case) -> Option<Json>)

  /** The contract: the cases and the paths the evidence must consist of. */
  datatype Contract = Contract(live: seq<Case>, saved: seq<Case>, catalog: set<string>, snapshots: set<string>)

  const SNAPSHOT_SCHEMA := Str("docmirror.personal_detail.final_audit_snapshot.v1")
  const NODE_RESULT_SCHEMA := Str("docmirror.personal_detail.final_audit_node_result.v1")
  const MATRIX_SCHEMA := Str("docmirror.personal_detail.final_audit_result_matrix.v1")
  const MANIFEST_SCHEMA := Str("docmirror.personal_detail.final_audit_manifest.v1")
  const COMPLETION_SCHEMA := Str("docmirror.personal_detail.final_audit_completion.v1")

  const MANIFEST := "manifest.json"
  const MARKER := "AUDIT_COMPLETE.json"
  const MATRIX := "result-matrix.json"
  const BASELINE := "snapshots/00-pre.json"
  const END := "snapshots/99-end.json"

  // ----- Reading JSON -----

  /** `value.get(key)`: None for a missing key, an exception (no value) when it is not a dictionary. */
  function Get(j: Json, key: string): Option<Json> {
    if !j.Dict? then None else Some(if key in j.fields then j.fields[key] else Null)
  }

  predicate Has(j: Json, key: string, value: Json) {
    Get(j, key) == Some(value)
  }

  /** Python's `value == n` for an integer n. */
  predicate EqualsInt(j: Json, n: int) {
    match j
    case Bool(b) => n == if b then 1 else 0
    case Int(i) => i == n
    case Float(f) => IsInteger(f, n)
    case _ => false
  }

  predicate HasInt(j: Json, key: string, n: int) {
    j.Dict? && EqualsInt(Get(j, key).value, n)
  }

  function ReadJson(w: World, d: Directory, path: string): Option<Json> {
    if path in d then w.decode(d[path]) else None
  }

  /** The items that iterating over a value yields; no value when that raises or yields no dictionaries. */
  function Iterated(j: Json): Option<seq<Json>> {
    match j
    case List(items) => Some(items)
    case Dict(fields) => if fields == map[] then Some([]) else None
    case Str(s) => if s == "" then Some([]) else None
    case _ => None
  }

  /** `value.get(key, ())`, iterated. */
  function Items(j: Json, key: string): Option<seq<Json>> {
    if !j.Dict? then None else if key !in j.fields then Some([]) else Iterated(j.fields[key])
  }

  /** `value.get(key) or ()`, iterated. */
  function ItemsOrNone(j: Json, key: string): Option<seq<Json>> {
    if !j.Dict? then None else if key !in j.fields || !Truthy(j.fields[key]) then Some([]) else Iterated(j.fields[key])
  }

  // ----- Snapshots and result records -----

  function Fingerprint(snapshot: Json, component: string): Option<Json> {
    if !snapshot.Dict? then None
    else
      var part := Get(snapshot, component).value;
      if Truthy(part) then Get(part, "fingerprint_sha256") else Some(Null)
  }

  predicate SameFingerprint(baseline: Json, observed: Json, component: string) {
    Fingerprint(baseline, component).Some? && Fingerprint(baseline, component) == Fingerprint(observed, component)
  }

  /** `compare_snapshots` raises nothing. */
  predicate SnapshotsMatch(baseline: Json, observed: Json) {
    && Has(baseline, "schema", SNAPSHOT_SCHEMA) && Has(observed, "schema", SNAPSHOT_SCHEMA)
    && SameFingerprint(baseline, observed, "code")
    && SameFingerprint(baseline, observed, "source_pdfs")
    && SameFingerprint(baseline, observed, "runtime")
    && Get(baseline, "composite_sha256") == Get(observed, "composite_sha256")
  }

  function CaseId(w: World, record: Json): string
    requires record.Dict?
  {
    var id := Get(record, "case_id").value;
    if !Truthy(id) then "" else if id.Str? then id.s else w.show(id)
  }

  predicate IsPass(record: Json, phase: string, c: Case) {
    && Has(record, "schema", NODE_RESULT_SCHEMA)
    && Has(record, "phase", Str(phase)) && Has(record, "node", Str(c.node)) && Has(record, "status", Str("passed"))
    && HasInt(record, "exit_code", 0) && !Truthy(Get(record, "errors").value)
  }

  /** The records are one passing record for every case of the contract, in any order. */
  ghost predicate ValidRecords(w: World, k: Contract, records: seq<Json>) {
    && (forall i | 0 <= i < |records| :: records[i].Dict?)
    && (forall i, j | 0 <= i < j < |records| :: CaseId(w, records[i]) != CaseId(w, records[j]))
    && (forall i | 0 <= i < |records| :: IsCaseId(k, CaseId(w, records[i])))
    && (forall c | c in k.live :: HasPass(w, records, "live", c))
    && (forall c | c in k.saved :: HasPass(w, records, "saved", c))
  }

  ghost predicate HasPass(w: World, records: seq<Json>, phase: string, c: Case) {
    exists i | 0 <= i < |records| :: records[i].Dict? && CaseId(w, records[i]) == c.id && IsPass(records[i], phase, c)
  }

  ghost predicate IsCaseId(k: Contract, id: string) {
    (exists c | c in k.live :: c.id == id) || (exists c | c in k.saved :: c.id == id)
  }

  ghost predicate DistinctCases(k: Contract) {
    forall i, j | 0 <= i < j < |AllCases(k)| :: AllCases(k)[i].id != AllCases(k)[j].id
  }

  function PhaseOf(k: Contract, i: nat): string {
    if i < |k.live| then "live" else "saved"
  }

  function AllCases(k: Contract): seq<Case> {
    k.live + k.saved
  }

  function CaseIds(k: Contract): set<string> {
    set i | 0 <= i < |AllCases(k)| :: AllCases(k)[i].id
  }

  /** byId is the dictionary of the records by case id. */
  ghost predicate IndexedById(w: World, records: seq<Json>, byId: map<string, Json>) {
    && (forall j | 0 <= j < |records| ::
          records[j].Dict? && CaseId(w, records[j]) in byId && byId[CaseId(w, records[j])] == records[j])
    && (forall a, b | 0 <= a < b < |records| :: CaseId(w, records[a]) != CaseId(w, records[b]))
    && (forall id | id in byId :: exists j | 0 <= j < |records| :: CaseId(w, records[j]) == id)
  }

  ghost predicate PassesCase(k: Contract, byId: map<string, Json>, i: nat)
    requires i < |AllCases(k)|
  {
    AllCases(k)[i].id in byId && IsPass(byId[AllCases(k)[i].id], PhaseOf(k, i), AllCases(k)[i])
  }

  ghost predicate PassesAll(k: Contract, byId: map<string, Json>) {
    byId.Keys == CaseIds(k) && forall i | 0 <= i < |AllCases(k)| :: PassesCase(k, byId, i)
  }

  lemma CaseAt(k: Contract, i: nat)
    requires i < |AllCases(k)|
    ensures if i < |k.live| then AllCases(k)[i] in k.live else AllCases(k)[i] in k.saved
  {
    if i >= |k.live| {
      assert AllCases(k)[i] == k.saved[i - |k.live|];
    }
  }

  lemma ValidPasses(w: World, k: Contract, records: seq<Json>, byId: map<string, Json>)
    requires IndexedById(w, records, byId) && ValidRecords(w, k, records)
    ensures PassesAll(k, byId)
  {
    var all := AllCases(k);
    forall i | 0 <= i < |all| ensures PassesCase(k, byId, i) {
      CaseAt(k, i);
      assert HasPass(w, records, PhaseOf(k, i), all[i]);
    }
    forall id | id in byId ensures id in CaseIds(k) {
      var j :| 0 <= j < |records| && CaseId(w, records[j]) == id;
      IdIsListed(k, id);
    }
    forall id | id in CaseIds(k) ensures id in byId {
      var i :| 0 <= i < |all| && all[i].id == id;
      assert PassesCase(k, byId, i);
    }
  }

  lemma PassIsHeld(w: World, k: Contract, records: seq<Json>, byId: map<string, Json>, i: nat)
    requires IndexedById(w, records, byId) && i < |AllCases(k)| && PassesCase(k, byId, i)
    ensures HasPass(w, records, PhaseOf(k, i), AllCases(k)[i])
  {
    var j :| 0 <= j < |records| && CaseId(w, records[j]) == AllCases(k)[i].id;
    assert records[j] == byId[AllCases(k)[i].id];
  }

  lemma PassesValid(w: World, k: Contract, records: seq<Json>, byId: map<string, Json>)
    requires IndexedById(w, records, byId) && PassesAll(k, byId)
    ensures ValidRecords(w, k, records)
  {
    var all := AllCases(k);
    forall i | 0 <= i < |records| ensures IsCaseId(k, CaseId(w, records[i])) {
      IdIsListed(k, CaseId(w, records[i]));
    }
    forall c | c in k.live ensures HasPass(w, records, "live", c) {
      var i :| 0 <= i < |k.live| && k.live[i] == c;
      assert all[i] == c && PassesCase(k, byId, i);
      PassIsHeld(w, k, records, byId, i);
    }
    forall c | c in k.saved ensures HasPass(w, records, "saved", c) {
      var i :| 0 <= i < |k.saved| && k.saved[i] == c;
      assert all[|k.live| + i] == c && PassesCase(k, byId, |k.live| + i);
      PassIsHeld(w, k, records, byId, |k.live| + i);
    }
  }

  /** Valid records are those whose dictionary has the contract's ids and a pass for each. */
  lemma ValidIffPasses(w: World, k: Contract, records: seq<Json>, byId: map<string, Json>)
    requires IndexedById(w, records, byId)
    ensures ValidRecords(w, k, records) <==> PassesAll(k, byId)
  {
    if ValidRecords(w, k, records) {
      ValidPasses(w, k, records, byId);
    }
    if PassesAll(k, byId) {
      PassesValid(w, k, records, byId);
    }
  }

  lemma IdIsListed(k: Contract, id: string)
    ensures IsCaseId(k, id) <==> id in CaseIds(k)
  {
    var all := AllCases(k);
    if c :| c in k.live && c.id == id {
      var i :| 0 <= i < |k.live| && k.live[i] == c;
      assert all[i].id == id;
    }
    if c :| c in k.saved && c.id == id {
      var i :| 0 <= i < |k.saved| && k.saved[i] == c;
      assert all[|k.live| + i].id == id;
    }
    if id in CaseIds(k) {
      var i :| 0 <= i < |all| && all[i].id == id;
      if i < |k.live| {
        assert all[i] in k.live;
      } else {
        assert all[i] in k.saved;
      }
    }
  }

  /** The selected records, in contract order, are valid again. */
  lemma SelectionIsValid(w: World, k: Contract, records: seq<Json>, byId: map<string, Json>, selected: seq<Json>)
    requires DistinctCases(k) && IndexedById(w, records, byId) && ValidRecords(w, k, records)
    requires |selected| == |AllCases(k)|
    requires forall i | 0 <= i < |selected| :: AllCases(k)[i].id in byId && selected[i] == byId[AllCases(k)[i].id]
    ensures ValidRecords(w, k, selected)
  {
    ValidIffPasses(w, k, records, byId);
    var all := AllCases(k);
    forall i | 0 <= i < |selected| ensures selected[i].Dict? && CaseId(w, selected[i]) == all[i].id {
      var j :| 0 <= j < |records| && CaseId(w, records[j]) == all[i].id;
      assert records[j] == selected[i];
    }
    forall i | 0 <= i < |all| ensures CaseId(w, selected[i]) in byId && byId[CaseId(w, selected[i])] == selected[i] {
    }
    forall id | id in byId ensures exists j | 0 <= j < |selected| :: CaseId(w, selected[j]) == id {
      var i :| 0 <= i < |all| && all[i].id == id;
      assert CaseId(w, selected[i]) == id;
    }
    ValidIffPasses(w, k, selected, byId);
  }

  lemma IndexNext(w: World, records: seq<Json>, record: Json, byId: map<string, Json>)
    requires IndexedById(w, records, byId) && record.Dict? && CaseId(w, record) !in byId
    ensures IndexedById(w, records + [record], byId[CaseId(w, record) := record])
  {
    var now, byId' := records + [record], byId[CaseId(w, record) := record];
    assert now[|records|] == record;
    forall id | id in byId' ensures exists j | 0 <= j < |now| :: CaseId(w, now[j]) == id {
      if id in byId {
        var j :| 0 <= j < |records| && CaseId(w, records[j]) == id;
        assert now[j] == records[j];
      }
    }
  }

  lemma DuplicateIsInvalid(w: World, k: Contract, records: seq<Json>, i: nat, byId: map<string, Json>)
    requires i < |records| && IndexedById(w, records[..i], byId)
    requires !records[i].Dict? || CaseId(w, records[i]) in byId
    ensures !ValidRecords(w, k, records)
  {
    if records[i].Dict? {
      var j :| 0 <= j < i && CaseId(w, records[..i][j]) == CaseId(w, records[i]);
      assert records[..i][j] == records[j];
    }
  }

  /** The dictionary `by_id`, unless a record is no dictionary or an id repeats. */
  method IndexById(w: World, k: Contract, records: seq<Json>) returns (byId: Option<map<string, Json>>)
    ensures byId.Some? ==> IndexedById(w, records, byId.value)
    ensures byId.None? ==> !ValidRecords(w, k, records)
  {
    var index: map<string, Json> := map[];
    for i := 0 to |records|
      invariant IndexedById(w, records[..i], index)
    {
      if !records[i].Dict? || CaseId(w, records[i]) in index {
        DuplicateIsInvalid(w, k, records, i, index);
        return None;
      }
      IndexNext(w, records[..i], records[i], index);
      assert records[..i + 1] == records[..i] + [records[i]];
      index := index[CaseId(w, records[i]) := records[i]];
    }
    assert records[..|records|] == records;
    byId := Some(index);
  }

  method AllPass(k: Contract, byId: map<string, Json>) returns (ok: bool)
    requires byId.Keys == CaseIds(k)
    ensures ok <==> forall i | 0 <= i < |AllCases(k)| :: PassesCase(k, byId, i)
  {
    var all := AllCases(k);
    for i := 0 to |all|
      invariant forall j | 0 <= j < i :: PassesCase(k, byId, j)
    {
      assert all[i].id in CaseIds(k);
      if !IsPass(byId[all[i].id], PhaseOf(k, i), all[i]) {
        assert !PassesCase(k, byId, i);
        return false;
      }
    }
    ok := true;
  }

  /** The records are those of the cases, in the order of the cases. */
  ghost predicate InOrder(w: World, records: seq<Json>, cases: seq<Case>, selected: seq<Json>) {
    |selected| == |cases| && forall i | 0 <= i < |cases| ::
      selected[i] in records && selected[i].Dict? && CaseId(w, selected[i]) == cases[i].id
  }

  lemma SelectedInOrder(w: World, records: seq<Json>, byId: map<string, Json>, cases: seq<Case>, selected: seq<Json>)
    requires IndexedById(w, records, byId) && |selected| == |cases|
    requires forall i | 0 <= i < |cases| :: cases[i].id in byId && selected[i] == byId[cases[i].id]
    ensures InOrder(w, records, cases, selected)
  {
    forall i | 0 <= i < |cases|
      ensures selected[i] in records && selected[i].Dict? && CaseId(w, selected[i]) == cases[i].id
    {
      var j :| 0 <= j < |records| && CaseId(w, records[j]) == cases[i].id;
      assert records[j] == selected[i];
    }
  }

  method Select(byId: map<string, Json>, cases: seq<Case>) returns (selected: seq<Json>)
    requires forall i | 0 <= i < |cases| :: cases[i].id in byId
    ensures |selected| == |cases| && forall i | 0 <= i < |cases| :: selected[i] == byId[cases[i].id]
  {
    selected := seq(|cases|, i requires 0 <= i < |cases| => byId[cases[i].id]);
  }

  lemma CasesIndexed(k: Contract, byId: map<string, Json>)
    requires PassesAll(k, byId)
    ensures forall i | 0 <= i < |k.live| :: k.live[i].id in byId
    ensures forall i | 0 <= i < |k.saved| :: k.saved[i].id in byId
  {
    forall i | 0 <= i < |k.live| ensures k.live[i].id in byId {
      assert AllCases(k)[i] == k.live[i] && PassesCase(k, byId, i);
    }
    forall i | 0 <= i < |k.saved| ensures k.saved[i].id in byId {
      assert AllCases(k)[|k.live| + i] == k.saved[i] && PassesCase(k, byId, |k.live| + i);
    }
  }

  lemma SelectedTogether(k: Contract, byId: map<string, Json>, live: seq<Json>, saved: seq<Json>)
    requires |live| == |k.live| && forall i | 0 <= i < |k.live| :: k.live[i].id in byId && live[i] == byId[k.live[i].id]
    requires |saved| == |k.saved| && forall i | 0 <= i < |k.saved| :: k.saved[i].id in byId && saved[i] == byId[k.saved[i].id]
    ensures |live + saved| == |AllCases(k)|
    ensures forall i | 0 <= i < |AllCases(k)| :: AllCases(k)[i].id in byId && (live + saved)[i] == byId[AllCases(k)[i].id]
  {
    forall i | 0 <= i < |AllCases(k)| ensures AllCases(k)[i].id in byId && (live + saved)[i] == byId[AllCases(k)[i].id] {
      if i >= |k.live| {
        assert AllCases(k)[i] == k.saved[i - |k.live|];
      }
    }
  }

  lemma SelectionsAreValid(w: World, k: Contract, records: seq<Json>, byId: map<string, Json>, live: seq<Json>, saved: seq<Json>)
    requires DistinctCases(k) && IndexedById(w, records, byId) && PassesAll(k, byId)
    requires |live| == |k.live| && forall i | 0 <= i < |k.live| :: k.live[i].id in byId && live[i] == byId[k.live[i].id]
    requires |saved| == |k.saved| && forall i | 0 <= i < |k.saved| :: k.saved[i].id in byId && saved[i] == byId[k.saved[i].id]
    ensures InOrder(w, records, k.live, live) && InOrder(w, records, k.saved, saved) && ValidRecords(w, k, live + saved)
  {
    PassesValid(w, k, records, byId);
    SelectedTogether(k, byId, live, saved);
    SelectionIsValid(w, k, records, byId, live + saved);
    SelectedInOrder(w, records, byId, k.live, live);
    SelectedInOrder(w, records, byId, k.saved, saved);
  }

  /** `validate_result_records`: the records of the live and of the saved cases, in contract order. */
  method ValidateResultRecords(w: World, k: Contract, records: seq<Json>) returns (r: Option<(seq<Json>, seq<Json>)>)
    requires DistinctCases(k)
    ensures r.Some? <==> ValidRecords(w, k, records)
    ensures r.Some? ==> InOrder(w, records, k.live, r.value.0) && InOrder(w, records, k.saved, r.value.1)
    ensures r.Some? ==> ValidRecords(w, k, r.value.0 + r.value.1)
  {
    var index := IndexById(w, k, records);
    if index.None? {
      return None;
    }
    var byId := index.value;
    ValidIffPasses(w, k, records, byId);
    if byId.Keys != CaseIds(k) {
      return None;
    }
    var ok := AllPass(k, byId);
    if !ok {
      return None;
    }
    CasesIndexed(k, byId);
    var live := Select(byId, k.live);
    var saved := Select(byId, k.saved);
    SelectionsAreValid(w, k, records, byId, live, saved);
    r := Some((live, saved));
  }
}
