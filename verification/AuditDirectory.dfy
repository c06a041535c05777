/** The attestation protocol of scripts/verify_personal_detail_final_audit.py: `finalize_audit` writes the matrix,
    the manifest and the completion marker, `verify_completed_audit` checks them against the directory. */
module AuditDirectory {
  import opened Options
  import opened Sequences
  import opened Sorting
  import opened JsonValue
  import opened Attestation

  // ----- Names -----

  /** The part of a path after its last slash. */
  function Name(path: string): (name: string)
    ensures |name| <= |path|
  {
    if |path| == 0 then "" else if path[|path| - 1] == '/' then "" else Name(path[..|path| - 1]) + [path[|path| - 1]]
  }

  predicate EndsWith(s: string, suffix: string) {
    |s| >= |suffix| && s[|s| - |suffix|..] == suffix
  }

  predicate IsTemporary(path: string) {
    EndsWith(Name(path), ".tmp")
  }

  ghost predicate NoTemporaries(d: Directory) {
    forall path | path in d :: !IsTemporary(path)
  }

  /** The sibling that `atomic_write_json` fills before it takes the place of the target. */
  function TemporaryFor(path: string): string {
    path[..|path| - |Name(path)|] + ("." + Name(path) + ".tmp")
  }

  /** Left out of the manifest wherever they are. */
  predicate IsAttestation(path: string) {
    Name(path) == MANIFEST || Name(path) == MARKER
  }

  /** The paths whose files the manifest accounts for. */
  predicate IsEvidence(path: string) {
    !IsAttestation(path) && !IsTemporary(path)
  }

  function Evidence(d: Directory): set<string> {
    set path | path in d && IsEvidence(path)
  }

  // ----- The manifest -----

  /** `file_record`. */
  function FileRecord(w: World, d: Directory, path: string): Json
    requires path in d
  {
    Dict(map["path" := Str(path), "bytes" := Int(|d[path]|), "sha256" := Str(w.hash(d[path]))])
  }

  function RecordPath(w: World, row: Json): string
    requires row.Dict?
  {
    var path := Get(row, "path").value;
    if !Truthy(path) then "" else if path.Str? then path.s else w.show(path)
  }

  /** The rows by path; a later row replaces an earlier one. */
  function ByPath(w: World, rows: seq<Json>): map<string, Json>
    requires forall i | 0 <= i < |rows| :: rows[i].Dict?
  {
    if |rows| == 0 then map[]
    else ByPath(w, rows[..|rows| - 1])[RecordPath(w, rows[|rows| - 1]) := rows[|rows| - 1]]
  }

  predicate RecordHolds(w: World, d: Directory, path: string, row: Json) {
    path in d && HasInt(row, "bytes", |d[path]|) && Has(row, "sha256", Str(w.hash(d[path])))
  }

  // ----- What verification requires -----

  ghost predicate MarkerHolds(w: World, k: Contract, d: Directory, manifest: Json, marker: Json) {
    && MANIFEST in d
    && Has(manifest, "schema", MANIFEST_SCHEMA) && Has(marker, "schema", COMPLETION_SCHEMA)
    && Has(marker, "status", Str("complete")) && Has(marker, "manifest_sha256", Str(w.hash(d[MANIFEST])))
    && MATRIX in d && Has(marker, "result_matrix_sha256", Str(w.hash(d[MATRIX])))
    && HasInt(marker, "live_expected", |k.live|) && HasInt(marker, "live_passed", |k.live|)
    && HasInt(marker, "saved_expected", |k.saved|) && HasInt(marker, "saved_passed", |k.saved|)
  }

  ghost predicate MatrixHolds(w: World, k: Contract, matrix: Json) {
    && Has(matrix, "schema", MATRIX_SCHEMA) && Has(matrix, "complete", Bool(true))
    && Items(matrix, "live_results").Some? && Items(matrix, "saved_results").Some?
    && ValidRecords(w, k, Items(matrix, "live_results").value + Items(matrix, "saved_results").value)
  }

  ghost predicate ManifestHolds(w: World, d: Directory, manifest: Json) {
    var rows := ItemsOrNone(manifest, "artifacts");
    && rows.Some? && (forall i | 0 <= i < |rows.value| :: rows.value[i].Dict?)
    && var records := ByPath(w, rows.value);
       records.Keys == Evidence(d) && forall path | path in records :: RecordHolds(w, d, path, records[path])
  }

  ghost predicate SnapshotsHold(baseline: Json, end: Json, marker: Json) {
    && SnapshotsMatch(baseline, end)
    && Get(marker, "baseline_composite_sha256") == Get(baseline, "composite_sha256")
    && Get(marker, "end_composite_sha256") == Get(end, "composite_sha256")
  }

  /** `verify_completed_audit` succeeds. */
  ghost predicate Verified(w: World, k: Contract, d: Directory) {
    var manifest, marker, matrix := ReadJson(w, d, MANIFEST), ReadJson(w, d, MARKER), ReadJson(w, d, MATRIX);
    var baseline, end := ReadJson(w, d, BASELINE), ReadJson(w, d, END);
    && manifest.Some? && marker.Some? && matrix.Some? && baseline.Some? && end.Some?
    && MarkerHolds(w, k, d, manifest.value, marker.value)
    && MatrixHolds(w, k, matrix.value)
    && ManifestHolds(w, d, manifest.value)
    && SnapshotsHold(baseline.value, end.value, marker.value)
  }

  method VerifyManifest(w: World, d: Directory, manifest: Json) returns (ok: bool)
    ensures ok <==> ManifestHolds(w, d, manifest)
  {
    var rows := ItemsOrNone(manifest, "artifacts");
    if rows.None? || exists i | 0 <= i < |rows.value| :: !rows.value[i].Dict? {
      return false;
    }
    var records := ByPath(w, rows.value);
    if records.Keys != Evidence(d) {
      return false;
    }
    var todo := records.Keys;
    while todo != {}
      invariant todo <= records.Keys
      invariant forall path | path in records.Keys - todo :: RecordHolds(w, d, path, records[path])
      decreases todo
    {
      var path :| path in todo;
      if !RecordHolds(w, d, path, records[path]) {
        return false;
      }
      todo := todo - {path};
    }
    ok := true;
  }

  /** `verify_completed_audit`: the checks in their order; false stands for any exception. */
  method VerifyCompletedAudit(w: World, k: Contract, d: Directory) returns (ok: bool)
    requires DistinctCases(k)
    ensures ok <==> Verified(w, k, d)
  {
    var manifestFile, markerFile := ReadJson(w, d, MANIFEST), ReadJson(w, d, MARKER);
    if manifestFile.None? || markerFile.None? {
      return false;
    }
    var manifest, marker := manifestFile.value, markerFile.value;
    if !Has(manifest, "schema", MANIFEST_SCHEMA) || !Has(marker, "schema", COMPLETION_SCHEMA) {
      return false;
    }
    if !Has(marker, "status", Str("complete")) || !Has(marker, "manifest_sha256", Str(w.hash(d[MANIFEST]))) {
      return false;
    }
    if MATRIX !in d || !Has(marker, "result_matrix_sha256", Str(w.hash(d[MATRIX]))) {
      return false;
    }
    var matrixFile := ReadJson(w, d, MATRIX);
    if matrixFile.None? || !Has(matrixFile.value, "schema", MATRIX_SCHEMA) || !Has(matrixFile.value, "complete", Bool(true)) {
      return false;
    }
    var live, saved := Items(matrixFile.value, "live_results"), Items(matrixFile.value, "saved_results");
    if live.None? || saved.None? {
      return false;
    }
    var results := ValidateResultRecords(w, k, live.value + saved.value);
    if results.None? {
      return false;
    }
    if !HasInt(marker, "live_expected", |k.live|) || !HasInt(marker, "live_passed", |results.value.0|)
       || !HasInt(marker, "saved_expected", |k.saved|) || !HasInt(marker, "saved_passed", |results.value.1|) {
      return false;
    }
    ok := VerifyManifest(w, d, manifest);
    if !ok {
      return;
    }
    var baseline, end := ReadJson(w, d, BASELINE), ReadJson(w, d, END);
    if baseline.None? || end.None? || !SnapshotsMatch(baseline.value, end.value) {
      return false;
    }
    if Get(marker, "baseline_composite_sha256") != Get(baseline.value, "composite_sha256") {
      return false;
    }
    if Get(marker, "end_composite_sha256") != Get(end.value, "composite_sha256") {
      return false;
    }
    ok := true;
  }

  // ----- Tampering -----

  ghost predicate InjectiveHash(w: World) {
    forall a, b :: w.hash(a) == w.hash(b) ==> a == b
  }

  ghost predicate SameEvidence(d: Directory, e: Directory) {
    forall path | IsEvidence(path) :: (path in d <==> path in e) && (path in d ==> d[path] == e[path])
  }

  lemma {:induction false} NameAfterSlash(directory: string, name: string)
    requires directory == "" || directory[|directory| - 1] == '/'
    requires forall i | 0 <= i < |name| :: name[i] != '/'
    ensures Name(directory + name) == name
  {
    if |name| > 0 {
      NameAfterSlash(directory, name[..|name| - 1]);
      assert (directory + name)[..|directory + name| - 1] == directory + name[..|name| - 1];
    } else {
      assert directory + name == directory;
    }
  }

  lemma {:induction false} NameIsSuffix(path: string)
    ensures var n := |path| - |Name(path)|;
            path[n..] == Name(path) && (forall i | n <= i < |path| :: path[i] != '/') && (n == 0 || path[n - 1] == '/')
  {
    if |path| > 0 && path[|path| - 1] != '/' {
      NameIsSuffix(path[..|path| - 1]);
    }
  }

  lemma {:induction false} TopLevelName(name: string)
    requires forall i | 0 <= i < |name| :: name[i] != '/'
    ensures Name(name) == name
  {
    NameAfterSlash("", name);
    assert "" + name == name;
  }

  lemma MatrixIsEvidence()
    ensures IsEvidence(MATRIX)
  {
    TopLevelName(MATRIX);
  }

  lemma BaselineIsEvidence()
    ensures IsEvidence(BASELINE)
  {
    assert "snapshots/" + "00-pre.json" == BASELINE;
    NameAfterSlash("snapshots/", "00-pre.json");
  }

  lemma EndIsEvidence()
    ensures IsEvidence(END)
  {
    assert "snapshots/" + "99-end.json" == END;
    NameAfterSlash("snapshots/", "99-end.json");
  }

  lemma AttestationNames()
    ensures IsAttestation(MANIFEST) && IsAttestation(MARKER)
  {
    TopLevelName(MANIFEST);
    TopLevelName(MARKER);
  }

  /** With manifest and marker fixed, a directory verifies exactly as long as its evidence is that of a verified one:
      adding, removing or changing any artifact is noticed. */
  lemma TamperEvident(w: World, k: Contract, d: Directory, e: Directory)
    requires InjectiveHash(w) && Verified(w, k, d)
    requires MANIFEST in e && e[MANIFEST] == d[MANIFEST] && MARKER in e && e[MARKER] == d[MARKER]
    ensures Verified(w, k, e) <==> SameEvidence(d, e)
  {
    MatrixIsEvidence();
    BaselineIsEvidence();
    EndIsEvidence();
    var manifest := ReadJson(w, d, MANIFEST).value;
    if Verified(w, k, e) {
      SameManifest(w, d, e, manifest);
    }
    if SameEvidence(d, e) {
      SameHolds(w, d, e, manifest);
    }
  }

  lemma SameManifest(w: World, d: Directory, e: Directory, manifest: Json)
    requires InjectiveHash(w) && ManifestHolds(w, d, manifest) && ManifestHolds(w, e, manifest)
    ensures SameEvidence(d, e)
  {
    var records := ByPath(w, ItemsOrNone(manifest, "artifacts").value);
    forall path | IsEvidence(path) ensures (path in d <==> path in e) && (path in d ==> d[path] == e[path]) {
      assert path in d <==> path in records.Keys;
      assert path in e <==> path in records.Keys;
      if path in records {
        assert RecordHolds(w, d, path, records[path]) && RecordHolds(w, e, path, records[path]);
      }
    }
  }

  lemma SameHolds(w: World, d: Directory, e: Directory, manifest: Json)
    requires SameEvidence(d, e) && ManifestHolds(w, d, manifest)
    ensures ManifestHolds(w, e, manifest)
  {
    var records := ByPath(w, ItemsOrNone(manifest, "artifacts").value);
    assert Evidence(d) == Evidence(e);
    forall path | path in records ensures RecordHolds(w, e, path, records[path]) {
      assert path in Evidence(d) && RecordHolds(w, d, path, records[path]);
    }
  }

  // ----- Finalizing -----

  ghost predicate RoundTrips(w: World) {
    forall j :: w.decode(w.encode(j)) == Some(j)
  }

  predicate IsSnapshotFile(path: string) {
    EndsWith(path, ".json") && path == "snapshots/" + Name(path)
  }

  predicate IsResultFile(path: string) {
    EndsWith(path, ".json") && path == "node-results/" + Name(path)
  }

  function ResultFiles(d: Directory): set<string> {
    set path | path in d && IsResultFile(path)
  }

  ghost predicate Contains(w: World, d: Directory, paths: seq<string>, records: seq<Json>) {
    |records| == |paths| && forall i | 0 <= i < |paths| :: ReadJson(w, d, paths[i]) == Some(records[i])
  }

  /** The result files hold one passing record per case. */
  ghost predicate ResultsPass(w: World, k: Contract, d: Directory) {
    exists paths, records :: Lists(paths, ResultFiles(d)) && Contains(w, d, paths, records) && ValidRecords(w, k, records)
  }

  ghost predicate AllReadable(w: World, d: Directory) {
    forall path | path in ResultFiles(d) :: ReadJson(w, d, path).Some?
  }

  lemma ListedReadable(w: World, d: Directory, paths: seq<string>, records: seq<Json>)
    requires Lists(paths, ResultFiles(d)) && Contains(w, d, paths, records)
    ensures AllReadable(w, d)
  {
    forall path | path in ResultFiles(d) ensures ReadJson(w, d, path).Some? {
      var i :| 0 <= i < |paths| && paths[i] == path;
    }
  }

  lemma PassingIsReadable(w: World, k: Contract, d: Directory)
    ensures ResultsPass(w, k, d) ==> AllReadable(w, d)
  {
    if ResultsPass(w, k, d) {
      var ps, rs :| Lists(ps, ResultFiles(d)) && Contains(w, d, ps, rs) && ValidRecords(w, k, rs);
      ListedReadable(w, d, ps, rs);
    }
  }

  /** In whatever order the result files are read, their records are valid or not. */
  lemma OrderIsIrrelevant(w: World, k: Contract, d: Directory, paths: seq<string>, records: seq<Json>)
    requires Lists(paths, ResultFiles(d)) && Contains(w, d, paths, records)
    ensures ResultsPass(w, k, d) <==> ValidRecords(w, k, records)
  {
    if ResultsPass(w, k, d) {
      var ps, rs :| Lists(ps, ResultFiles(d)) && Contains(w, d, ps, rs) && ValidRecords(w, k, rs);
      ValidInAnyOrder(w, k, d, ResultFiles(d), ps, rs, paths, records);
    }
  }

  lemma PositionIn(all: set<string>, paths: seq<string>, ps: seq<string>, i: nat) returns (a: nat)
    requires Lists(paths, all) && Lists(ps, all) && i < |paths|
    ensures a < |ps| && ps[a] == paths[i]
  {
    assert paths[i] in all;
    a :| a < |ps| && ps[a] == paths[i];
  }

  lemma ValidInAnyOrder(w: World, k: Contract, d: Directory, all: set<string>, ps: seq<string>, rs: seq<Json>,
                        paths: seq<string>, records: seq<Json>)
    requires Lists(ps, all) && Contains(w, d, ps, rs) && ValidRecords(w, k, rs)
    requires Lists(paths, all) && Contains(w, d, paths, records)
    ensures ValidRecords(w, k, records)
  {
    forall i | 0 <= i < |records| ensures records[i].Dict? && IsCaseId(k, CaseId(w, records[i])) {
      var a := PositionIn(all, paths, ps, i);
      assert rs[a] == records[i];
    }
    forall i, j | 0 <= i < j < |records| ensures CaseId(w, records[i]) != CaseId(w, records[j]) {
      var a := PositionIn(all, paths, ps, i);
      var b := PositionIn(all, paths, ps, j);
      assert rs[a] == records[i] && rs[b] == records[j] && a != b;
      assert CaseId(w, rs[if a < b then a else b]) != CaseId(w, rs[if a < b then b else a]);
    }
    forall c | c in k.live ensures HasPass(w, records, "live", c) {
      PassMoves(w, d, all, ps, rs, paths, records, "live", c);
    }
    forall c | c in k.saved ensures HasPass(w, records, "saved", c) {
      PassMoves(w, d, all, ps, rs, paths, records, "saved", c);
    }
  }

  lemma PassMoves(w: World, d: Directory, all: set<string>, ps: seq<string>, rs: seq<Json>, paths: seq<string>, records: seq<Json>,
                  phase: string, c: Case)
    requires Lists(ps, all) && Contains(w, d, ps, rs) && HasPass(w, rs, phase, c)
    requires Lists(paths, all) && Contains(w, d, paths, records)
    ensures HasPass(w, records, phase, c)
  {
    var a :| 0 <= a < |rs| && rs[a].Dict? && CaseId(w, rs[a]) == c.id && IsPass(rs[a], phase, c);
    var i := PositionIn(all, ps, paths, a);
    assert records[i] == rs[a];
  }

  /** What lets `finalize_audit` succeed. */
  ghost predicate CanFinalize(w: World, k: Contract, d: Directory, sourcePdfs: Option<Json>) {
    EvidenceIsThere(w, k, d) && d.Keys + {MATRIX} == k.catalog && SameSources(sourcePdfs, ReadJson(w, d, BASELINE).value)
  }

  /** No attestation and no temporary file yet, matching snapshots, a pass for every case, and a report for every live one. */
  ghost predicate EvidenceIsThere(w: World, k: Contract, d: Directory) {
    var baseline, end := ReadJson(w, d, BASELINE), ReadJson(w, d, END);
    && MARKER !in d && MANIFEST !in d && NoTemporaries(d)
    && baseline.Some? && end.Some? && SnapshotsMatch(baseline.value, end.value)
    && CheckpointsHold(w, k, d, baseline.value)
    && ResultsPass(w, k, d) && (forall c | c in k.live :: w.report(d, c).Some?)
    && HasKey(baseline.value, "composite_sha256") && HasKey(end.value, "composite_sha256")
  }

  /** What the first half of `finalize_audit` hands to the second. */
  datatype Evidences = Evidences(baseline: Json, end: Json, live: seq<Json>, saved: seq<Json>, reports: seq<Json>)

  /** `_assert_checkpoint_catalog` raises nothing. */
  ghost predicate CheckpointsHold(w: World, k: Contract, d: Directory, baseline: Json) {
    && (set path | path in d && IsSnapshotFile(path)) == k.snapshots
    && forall path | path in k.snapshots && path != BASELINE ::
         ReadJson(w, d, path).Some? && SnapshotsMatch(baseline, ReadJson(w, d, path).value)
  }

  // ----- What finalizing writes -----

  function MatrixJson(now: Json, baseline: Json, end: Json, live: seq<Json>, saved: seq<Json>, reports: seq<Json>): Json
    requires baseline.Dict? && end.Dict? && "composite_sha256" in baseline.fields && "composite_sha256" in end.fields
  {
    Dict(map[
      "schema" := MATRIX_SCHEMA, "completed_utc" := now, "complete" := Bool(true),
      "baseline_composite_sha256" := baseline.fields["composite_sha256"],
      "end_composite_sha256" := end.fields["composite_sha256"],
      "summary" := Dict(map[
        "live_expected" := Int(|live|), "live_passed" := Int(|live|),
        "saved_expected" := Int(|saved|), "saved_passed" := Int(|saved|), "failures" := Int(0), "skipped" := Int(0)]),
      "live_results" := List(live), "saved_results" := List(saved), "reports" := List(reports)])
  }

  function ManifestJson(now: Json, baseline: Json, sourcePdfs: Json, rows: seq<Json>): Json
    requires baseline.Dict? && "composite_sha256" in baseline.fields
  {
    Dict(map[
      "schema" := MANIFEST_SCHEMA, "completed_utc" := now,
      "baseline_composite_sha256" := baseline.fields["composite_sha256"],
      "source_pdfs" := sourcePdfs, "artifacts" := List(rows)])
  }

  function MarkerJson(w: World, d: Directory, now: Json, baseline: Json, end: Json, live: nat, saved: nat): Json
    requires baseline.Dict? && end.Dict? && "composite_sha256" in baseline.fields && "composite_sha256" in end.fields
    requires MANIFEST in d && MATRIX in d
  {
    Dict(map[
      "schema" := COMPLETION_SCHEMA, "status" := Str("complete"), "completed_utc" := now,
      "manifest_sha256" := Str(w.hash(d[MANIFEST])), "result_matrix_sha256" := Str(w.hash(d[MATRIX])),
      "baseline_composite_sha256" := baseline.fields["composite_sha256"],
      "end_composite_sha256" := end.fields["composite_sha256"],
      "live_expected" := Int(live), "live_passed" := Int(live), "saved_expected" := Int(saved), "saved_passed" := Int(saved)])
  }

  /** The files the manifest records. */
  function Artifacts(d: Directory): set<string> {
    set path | path in d && !IsAttestation(path)
  }

  /** The rows are the records of the files at the paths. */
  ghost predicate AreRecords(w: World, d: Directory, paths: seq<string>, rows: seq<Json>) {
    |rows| == |paths| && forall i | 0 <= i < |paths| :: paths[i] in d && rows[i] == FileRecord(w, d, paths[i])
  }

  /** The rows are the records of the files to attest, in the order of their paths. */
  ghost predicate IsManifest(w: World, d: Directory, paths: seq<string>, rows: seq<Json>) {
    Lists(paths, Artifacts(d)) && SortedBy(StringLe, paths) && AreRecords(w, d, paths, rows)
  }

  /** The dictionary by path of true records has exactly one for every file listed. */
  lemma {:induction false} RecordsByPath(w: World, d: Directory, paths: seq<string>, rows: seq<Json>)
    requires AreRecords(w, d, paths, rows) && "" !in d
    ensures forall path :: path in ByPath(w, rows) <==> path in paths
    ensures forall path | path in paths :: path in d && ByPath(w, rows)[path] == FileRecord(w, d, path)
  {
    if |rows| > 0 {
      var n := |rows| - 1;
      RecordsByPath(w, d, paths[..n], rows[..n]);
      assert paths == paths[..n] + [paths[n]];
      assert RecordPath(w, rows[n]) == paths[n];
    }
  }

  /** The manifest of a directory still holds once manifest and marker are written beside it. */
  lemma FreshManifestHolds(w: World, d: Directory, e: Directory, manifest: Json, paths: seq<string>, rows: seq<Json>)
    requires ItemsOrNone(manifest, "artifacts") == Some(rows) && "" !in d
    requires Lists(paths, Artifacts(d)) && AreRecords(w, d, paths, rows)
    requires NoTemporaries(d) && d.Keys <= e.Keys
    requires forall path | path in e && !IsAttestation(path) :: path in d && e[path] == d[path]
    ensures ManifestHolds(w, e, manifest)
  {
    var records := ByPath(w, rows);
    RecordsByPath(w, d, paths, rows);
    assert records.Keys == Evidence(e);
    forall path | path in records ensures RecordHolds(w, e, path, records[path]) {
      var row := FileRecord(w, d, path);
      assert Get(row, "bytes") == Some(Int(|d[path]|)) && Get(row, "sha256") == Some(Str(w.hash(d[path])));
    }
  }

  lemma FreshMatrixHolds(w: World, k: Contract, now: Json, baseline: Json, end: Json,
                         live: seq<Json>, saved: seq<Json>, reports: seq<Json>)
    requires baseline.Dict? && end.Dict? && "composite_sha256" in baseline.fields && "composite_sha256" in end.fields
    requires ValidRecords(w, k, live + saved)
    ensures MatrixHolds(w, k, MatrixJson(now, baseline, end, live, saved, reports))
  {
    var matrix := MatrixJson(now, baseline, end, live, saved, reports);
    assert Items(matrix, "live_results") == Some(live);
    assert Items(matrix, "saved_results") == Some(saved);
  }

  lemma FreshMarkerHolds(w: World, k: Contract, d: Directory, e: Directory, now: Json, manifest: Json, baseline: Json, end: Json)
    requires baseline.Dict? && end.Dict? && "composite_sha256" in baseline.fields && "composite_sha256" in end.fields
    requires MANIFEST in d && MATRIX in d && MANIFEST in e && MATRIX in e && e[MANIFEST] == d[MANIFEST] && e[MATRIX] == d[MATRIX]
    requires Has(manifest, "schema", MANIFEST_SCHEMA) && SnapshotsMatch(baseline, end)
    ensures var marker := MarkerJson(w, d, now, baseline, end, |k.live|, |k.saved|);
            MarkerHolds(w, k, e, manifest, marker) && SnapshotsHold(baseline, end, marker)
  {
  }

  /** The audit directory as the script changes it. */
  class Audit {
    const world: World
    const contract: Contract
    var files: Directory

    constructor (world: World, contract: Contract, files: Directory)
      ensures this.world == world && this.contract == contract && this.files == files
    {
      this.world, this.contract, this.files := world, contract, files;
    }

    /** `atomic_write_json`: a temporary file takes the place of the target. */
    method AtomicWriteJson(path: string, value: Json)
      modifies this
      ensures files == Written(old(files), path, world.encode(value))
    {
      var temporary := TemporaryFor(path);
      TemporaryIsTemporary(path);
      files := files[temporary := world.encode(value)];
      files := files[path := files[temporary]] - {temporary};
    }

    /** `_artifact_manifest`: one record for every file but the attestation itself, in the order of their paths. */
    method ArtifactManifest() returns (rows: seq<Json>)
      requires "" !in files
      ensures exists paths :: IsManifest(world, files, paths, rows)
    {
      StringOrder();
      var order := SortedList(StringLe, Artifacts(files));
      rows := [];
      for i := 0 to |order|
        invariant AreRecords(world, files, order[..i], rows)
      {
        assert order[i] in order;
        rows := rows + [FileRecord(world, files, order[i])];
      }
      assert order[..|order|] == order;
      assert IsManifest(world, files, order, rows);
    }

    /** `_load_node_results`; the order is left open. */
    method LoadNodeResults() returns (results: Option<seq<Json>>, ghost paths: seq<string>)
      ensures results.Some? <==> AllReadable(world, files)
      ensures results.Some? ==> Lists(paths, ResultFiles(files)) && Contains(world, files, paths, results.value)
    {
      var list: seq<Json> := [];
      paths := [];
      var todo := ResultFiles(files);
      while todo != {}
        invariant todo <= ResultFiles(files)
        invariant Lists(paths, ResultFiles(files) - todo) && Contains(world, files, paths, list)
        decreases todo
      {
        var path :| path in todo;
        var value := ReadJson(world, files, path);
        if value.None? {
          return None, paths;
        }
        list := list + [value.value];
        ListsNext(paths, ResultFiles(files), todo, path);
        paths := paths + [path];
        todo := todo - {path};
      }
      ListedReadable(world, files, paths, list);
      results := Some(list);
    }

    /** `_assert_checkpoint_catalog`. */
    method CheckpointsMatch(baseline: Json) returns (ok: bool)
      ensures ok <==> CheckpointsHold(world, contract, files, baseline)
    {
      if (set path | path in files && IsSnapshotFile(path)) != contract.snapshots {
        return false;
      }
      var todo := contract.snapshots - {BASELINE};
      while todo != {}
        invariant todo <= contract.snapshots - {BASELINE}
        invariant forall path | path in contract.snapshots && path != BASELINE && path !in todo ::
          ReadJson(world, files, path).Some? && SnapshotsMatch(baseline, ReadJson(world, files, path).value)
        decreases todo
      {
        var path :| path in todo;
        var value := ReadJson(world, files, path);
        if value.None? || !SnapshotsMatch(baseline, value.value) {
          return false;
        }
        todo := todo - {path};
      }
      ok := true;
    }

    /** The reports of the live cases. */
    method SavedPairs() returns (reports: Option<seq<Json>>)
      ensures reports.Some? <==> forall c | c in contract.live :: world.report(files, c).Some?
      ensures reports.Some? ==> |reports.value| == |contract.live|
      ensures reports.Some? ==> forall i | 0 <= i < |reports.value| :: world.report(files, contract.live[i]) == Some(reports.value[i])
    {
      var list: seq<Json> := [];
      for i := 0 to |contract.live|
        invariant |list| == i && forall j | 0 <= j < i :: world.report(files, contract.live[j]) == Some(list[j])
      {
        var report := world.report(files, contract.live[i]);
        if report.None? {
          return None;
        }
        list := list + [report.value];
      }
      reports := Some(list);
    }

    /** `finalize_audit`. `sourcePdfs` is the new capture of the source PDFs, `now` the clock. A result of None stands for
        an exception; then at most the matrix has been written. */
    method Finalize(sourcePdfs: Option<Json>, now: Json) returns (result: Option<Json>)
      requires RoundTrips(world) && DistinctCases(contract) && "" !in files
      modifies this
      ensures result.Some? ==> Verified(world, contract, files) && ReadJson(world, files, MARKER) == result
      ensures result.Some? <==> CanFinalize(world, contract, old(files), sourcePdfs)
      ensures result.Some? ==> OnlyChanges(old(files), files, {MATRIX, MANIFEST, MARKER})
      ensures result.None? ==> OnlyChanges(old(files), files, {MATRIX})
    {
      var evidence := CheckEvidence();
      if evidence.None? {
        return None;
      }
      var e := evidence.value;
      result := WriteAttestation(sourcePdfs, now, e.baseline, e.end, e.live, e.saved, e.reports);
    }

    /** The first half of `finalize_audit`, which writes nothing. */
    method CheckEvidence() returns (evidence: Option<Evidences>)
      requires DistinctCases(contract) && "" !in files
      ensures evidence.Some? <==> EvidenceIsThere(world, contract, files)
      ensures evidence.Some? ==>
        ReadyToAttest(world, contract, files, evidence.value.baseline, evidence.value.end, evidence.value.live, evidence.value.saved)
    {
      if MARKER in files || MANIFEST in files {
        return None;
      }
      if exists path | path in files :: IsTemporary(path) {
        return None;
      }
      var baselineFile, endFile := ReadJson(world, files, BASELINE), ReadJson(world, files, END);
      if baselineFile.None? || endFile.None? || !SnapshotsMatch(baselineFile.value, endFile.value) {
        return None;
      }
      var baseline, end := baselineFile.value, endFile.value;
      var ok := CheckpointsMatch(baseline);
      if !ok {
        return None;
      }
      var results := CheckResults();
      if results.None? {
        return None;
      }
      var reports := SavedPairs();
      if reports.None? || "composite_sha256" !in baseline.fields || "composite_sha256" !in end.fields {
        return None;
      }
      evidence := Some(Evidences(baseline, end, results.value.0, results.value.1, reports.value));
    }

    /** The validated results of the result files. */
    method CheckResults() returns (results: Option<(seq<Json>, seq<Json>)>)
      requires DistinctCases(contract)
      ensures results.Some? <==> ResultsPass(world, contract, files)
      ensures results.Some? ==>
        |results.value.0| == |contract.live| && |results.value.1| == |contract.saved|
        && ValidRecords(world, contract, results.value.0 + results.value.1)
    {
      var records, paths := LoadNodeResults();
      if records.None? {
        PassingIsReadable(world, contract, files);
        return None;
      }
      OrderIsIrrelevant(world, contract, files, paths, records.value);
      results := ValidateResultRecords(world, contract, records.value);
    }

    /** The second half of `finalize_audit`, from the matrix on. */
    method WriteAttestation(sourcePdfs: Option<Json>, now: Json, baseline: Json, end: Json,
                            live: seq<Json>, saved: seq<Json>, reports: seq<Json>) returns (result: Option<Json>)
      requires RoundTrips(world) && ReadyToAttest(world, contract, files, baseline, end, live, saved)
      modifies this
      ensures result.Some? ==> Verified(world, contract, files) && ReadJson(world, files, MARKER) == result
      ensures result.Some? <==> old(files).Keys + {MATRIX} == contract.catalog && SameSources(sourcePdfs, baseline)
      ensures result.Some? ==> OnlyChanges(old(files), files, {MATRIX, MANIFEST, MARKER})
      ensures result.None? ==> OnlyChanges(old(files), files, {MATRIX})
    {
      ghost var before := files;
      var matrix := MatrixJson(now, baseline, end, live, saved, reports);
      AtomicWriteJson(MATRIX, matrix);
      MatrixWritten(world, contract, before, files, baseline, end, live, saved, matrix);
      NothingTemporary(files);
      if (set path | path in files && !IsTemporary(path)) != contract.catalog {
        return None;
      }
      if !SameSources(sourcePdfs, baseline) {
        return None;
      }
      var marker := WriteManifestAndMarker(sourcePdfs.value, now, baseline, end, live, saved, reports);
      ChangesCompose(before, Written(before, MATRIX, world.encode(matrix)), files);
      result := Some(marker);
    }

    method WriteManifestAndMarker(sourcePdfs: Json, now: Json, baseline: Json, end: Json,
                                  live: seq<Json>, saved: seq<Json>, ghost reports: seq<Json>) returns (marker: Json)
      requires RoundTrips(world) && ReadyToAttest(world, contract, files, baseline, end, live, saved)
      requires MATRIX in files && files[MATRIX] == world.encode(MatrixJson(now, baseline, end, live, saved, reports))
      modifies this
      ensures Verified(world, contract, files) && ReadJson(world, files, MARKER) == Some(marker)
      ensures files.Keys - {MANIFEST, MARKER} == old(files).Keys && OnlyChanges(old(files), files, {MANIFEST, MARKER})
    {
      ghost var before := files;
      var rows := ArtifactManifest();
      ghost var paths :| IsManifest(world, before, paths, rows);
      var manifest := ManifestJson(now, baseline, sourcePdfs, rows);
      AtomicWriteJson(MANIFEST, manifest);
      ghost var withManifest := files;
      ManifestWritten(before, files, world.encode(manifest));
      marker := MarkerJson(world, files, now, baseline, end, |live|, |saved|);
      AtomicWriteJson(MARKER, marker);
      MarkerWritten(before, withManifest, files, world.encode(manifest), world.encode(marker));
      FinalizedVerifies(world, contract, before, withManifest, files, now, baseline, end, live, saved, reports, sourcePdfs,
                        paths, rows);
    }
  }

  /** What `finalize_audit` has established when it starts to write. */
  ghost predicate ReadyToAttest(w: World, k: Contract, d: Directory, baseline: Json, end: Json, live: seq<Json>, saved: seq<Json>) {
    && "" !in d && MARKER !in d && MANIFEST !in d && NoTemporaries(d)
    && ReadJson(w, d, BASELINE) == Some(baseline) && ReadJson(w, d, END) == Some(end)
    && SnapshotsMatch(baseline, end) && "composite_sha256" in baseline.fields && "composite_sha256" in end.fields
    && |live| == |k.live| && |saved| == |k.saved| && ValidRecords(w, k, live + saved)
  }

  /** The directory after an atomic write. */
  function Written(d: Directory, path: string, content: Bytes): Directory {
    (d - {TemporaryFor(path)})[path := content]
  }

  lemma TemporaryIsTemporary(path: string)
    ensures IsTemporary(TemporaryFor(path)) && TemporaryFor(path) != path
  {
    var n := |path| - |Name(path)|;
    NameIsSuffix(path);
    var name := "." + Name(path) + ".tmp";
    assert forall i | 0 <= i < |Name(path)| :: Name(path)[i] == path[n + i];
    NameAfterSlash(path[..n], name);
    assert name[|name| - 4..] == ".tmp";
  }

  /** Nothing is lost by an atomic write where no temporary file is left over. */
  lemma WriteAddsOnly(d: Directory, path: string, content: Bytes)
    requires NoTemporaries(d)
    ensures Written(d, path, content) == d[path := content]
  {
    TemporaryIsTemporary(path);
    assert TemporaryFor(path) !in d;
    assert d - {TemporaryFor(path)} == d;
  }

  lemma ConstantNames()
    ensures !IsTemporary(MATRIX) && "" != MATRIX && MATRIX != MANIFEST && MATRIX != MARKER && MATRIX != BASELINE && MATRIX != END
    ensures MANIFEST != BASELINE && MANIFEST != END && MARKER != BASELINE && MARKER != END && MANIFEST != MARKER
    ensures !IsTemporary(MANIFEST)
  {
    MatrixIsEvidence();
    TopLevelName(MANIFEST);
    assert |MATRIX| == 18 && |MANIFEST| == 13 && |MARKER| == 19 && |BASELINE| == 21 && |END| == 21;
  }

  lemma MatrixWritten(w: World, k: Contract, d: Directory, e: Directory, baseline: Json, end: Json,
                      live: seq<Json>, saved: seq<Json>, matrix: Json)
    requires ReadyToAttest(w, k, d, baseline, end, live, saved)
    requires e == Written(d, MATRIX, w.encode(matrix))
    ensures ReadyToAttest(w, k, e, baseline, end, live, saved)
    ensures MATRIX in e && e[MATRIX] == w.encode(matrix) && OnlyChanges(d, e, {MATRIX}) && e.Keys == d.Keys + {MATRIX}
  {
    WriteAddsOnly(d, MATRIX, w.encode(matrix));
    ConstantNames();
  }

  lemma ManifestWritten(d: Directory, e: Directory, content: Bytes)
    requires NoTemporaries(d) && MATRIX in d && e == Written(d, MANIFEST, content)
    ensures e == d[MANIFEST := content] && NoTemporaries(e) && MANIFEST in e && MATRIX in e
  {
    WriteAddsOnly(d, MANIFEST, content);
    ConstantNames();
  }

  lemma MarkerWritten(d: Directory, d': Directory, e: Directory, manifest: Bytes, marker: Bytes)
    requires MARKER !in d && MANIFEST !in d
    requires d' == d[MANIFEST := manifest] && NoTemporaries(d') && e == Written(d', MARKER, marker)
    ensures e == d'[MARKER := marker] && MARKER in e && e[MARKER] == marker
    ensures e.Keys - {MANIFEST, MARKER} == d.Keys && OnlyChanges(d, e, {MANIFEST, MARKER})
  {
    WriteAddsOnly(d', MARKER, marker);
  }

  lemma NothingTemporary(d: Directory)
    requires NoTemporaries(d)
    ensures (set path | path in d && !IsTemporary(path)) == d.Keys
  {
  }

  lemma ChangesCompose(d: Directory, d': Directory, e: Directory)
    requires OnlyChanges(d, d', {MATRIX}) && OnlyChanges(d', e, {MANIFEST, MARKER})
    ensures OnlyChanges(d, e, {MATRIX, MANIFEST, MARKER})
  {
  }

  /** The source PDFs captured at the end have the fingerprint of the baseline; a missing key raises. */
  predicate SameSources(sourcePdfs: Option<Json>, baseline: Json) {
    && sourcePdfs.Some? && baseline.Dict? && "source_pdfs" in baseline.fields
    && HasKey(sourcePdfs.value, "fingerprint_sha256") && HasKey(baseline.fields["source_pdfs"], "fingerprint_sha256")
    && Get(baseline.fields["source_pdfs"], "fingerprint_sha256") == Get(sourcePdfs.value, "fingerprint_sha256")
  }

  predicate HasKey(j: Json, key: string) {
    j.Dict? && key in j.fields
  }

  /** Only the files at the given paths differ. */
  ghost predicate OnlyChanges(d: Directory, e: Directory, paths: set<string>) {
    forall path | path !in paths :: (path in d <==> path in e) && (path in d ==> d[path] == e[path])
  }

  /** The directory after the three writes passes verification. */
  lemma FinalizedVerifies(w: World, k: Contract, d: Directory, d': Directory, e: Directory, now: Json, baseline: Json, end: Json,
                          live: seq<Json>, saved: seq<Json>, reports: seq<Json>, sourcePdfs: Json, paths: seq<string>, rows: seq<Json>)
    requires RoundTrips(w) && ReadyToAttest(w, k, d, baseline, end, live, saved)
    requires MATRIX in d && d[MATRIX] == w.encode(MatrixJson(now, baseline, end, live, saved, reports))
    requires Lists(paths, Artifacts(d)) && AreRecords(w, d, paths, rows)
    requires d' == d[MANIFEST := w.encode(ManifestJson(now, baseline, sourcePdfs, rows))]
    requires e == d'[MARKER := w.encode(MarkerJson(w, d', now, baseline, end, |live|, |saved|))]
    ensures Verified(w, k, e)
  {
    var manifest := ManifestJson(now, baseline, sourcePdfs, rows);
    var marker := MarkerJson(w, d', now, baseline, end, |live|, |saved|);
    var matrix := MatrixJson(now, baseline, end, live, saved, reports);
    FinalReads(w, d, e, manifest, marker, matrix);
    RowsAreArtifacts(manifest, now, baseline, sourcePdfs, rows);
    ManifestStays(w, d, e, manifest, w.encode(marker), paths, rows);
    FreshMatrixHolds(w, k, now, baseline, end, live, saved, reports);
    MarkerStays(w, k, d, d', e, now, manifest, marker, baseline, end, |live|, |saved|);
    Assembled(w, k, e, manifest, marker, matrix, baseline, end);
  }

  lemma Assembled(w: World, k: Contract, e: Directory, manifest: Json, marker: Json, matrix: Json, baseline: Json, end: Json)
    requires ReadJson(w, e, MANIFEST) == Some(manifest) && ReadJson(w, e, MARKER) == Some(marker)
    requires ReadJson(w, e, MATRIX) == Some(matrix)
    requires ReadJson(w, e, BASELINE) == Some(baseline) && ReadJson(w, e, END) == Some(end)
    requires MarkerHolds(w, k, e, manifest, marker) && MatrixHolds(w, k, matrix)
    requires ManifestHolds(w, e, manifest) && SnapshotsHold(baseline, end, marker)
    ensures Verified(w, k, e)
  {
  }

  lemma ManifestStays(w: World, d: Directory, e: Directory, manifest: Json, marker: Bytes, paths: seq<string>, rows: seq<Json>)
    requires NoTemporaries(d) && "" !in d && MARKER !in d && MANIFEST !in d
    requires ItemsOrNone(manifest, "artifacts") == Some(rows)
    requires Lists(paths, Artifacts(d)) && AreRecords(w, d, paths, rows)
    requires e == d[MANIFEST := w.encode(manifest)][MARKER := marker]
    ensures ManifestHolds(w, e, manifest)
  {
    AttestationNames();
    FreshManifestHolds(w, d, e, manifest, paths, rows);
  }

  lemma MarkerStays(w: World, k: Contract, d: Directory, d': Directory, e: Directory, now: Json, manifest: Json, marker: Json,
                    baseline: Json, end: Json, live: nat, saved: nat)
    requires live == |k.live| && saved == |k.saved| && MATRIX in d && Has(manifest, "schema", MANIFEST_SCHEMA)
    requires d' == d[MANIFEST := w.encode(manifest)] && e == d'[MARKER := w.encode(marker)]
    requires SnapshotsMatch(baseline, end) && "composite_sha256" in baseline.fields && "composite_sha256" in end.fields
    requires marker == MarkerJson(w, d', now, baseline, end, live, saved)
    ensures MarkerHolds(w, k, e, manifest, marker) && SnapshotsHold(baseline, end, marker)
  {
    ConstantNames();
    FreshMarkerHolds(w, k, d', e, now, manifest, baseline, end);
  }

  lemma FinalReads(w: World, d: Directory, e: Directory, manifest: Json, marker: Json, matrix: Json)
    requires RoundTrips(w) && MATRIX in d && d[MATRIX] == w.encode(matrix)
    requires e == d[MANIFEST := w.encode(manifest)][MARKER := w.encode(marker)]
    ensures ReadJson(w, e, MANIFEST) == Some(manifest) && ReadJson(w, e, MARKER) == Some(marker)
    ensures ReadJson(w, e, MATRIX) == Some(matrix)
    ensures ReadJson(w, e, BASELINE) == ReadJson(w, d, BASELINE) && ReadJson(w, e, END) == ReadJson(w, d, END)
  {
    ConstantNames();
  }

  lemma RowsAreArtifacts(manifest: Json, now: Json, baseline: Json, sourcePdfs: Json, rows: seq<Json>)
    requires baseline.Dict? && "composite_sha256" in baseline.fields
    requires manifest == ManifestJson(now, baseline, sourcePdfs, rows)
    ensures ItemsOrNone(manifest, "artifacts") == Some(rows) && Has(manifest, "schema", MANIFEST_SCHEMA)
  {
  }
}
