/** The audit said on the fields of its files: what a record, a snapshot, a manifest and a marker must hold for
    validating, verifying and finalizing to succeed, with every name and value written out. */
module AuditFields {
  import opened Options
  import opened Sequences
  import opened JsonValue
  import opened Attestation
  import opened AuditDirectory

  type Fields = map<string, Json>

  // ----- Values -----

  ghost predicate Is(m: Fields, key: string, text: string) {
    key in m && m[key] == Str(text)
  }

  /** The value of a key, with null for a missing one. */
  ghost function ValueOf(m: Fields, key: string): Json {
    if key in m then m[key] else Null
  }

  ghost predicate IsZero(j: Json) {
    j == Int(0) || j == Bool(false) || j == Float(Binary(0, 0))
  }

  ghost predicate IsEmpty(j: Json) {
    IsZero(j) || j == Null || j == Str("") || j == List([]) || j == Dict(map[])
  }

  lemma TruthyIff(j: Json)
    ensures Truthy(j) <==> !IsEmpty(j)
  {
  }

  lemma {:induction false} PowerIsPositive(n: nat)
    ensures Pow2(n) > 0
  {
    if n > 0 {
      PowerIsPositive(n - 1);
    }
  }

  lemma ProductIsZero(m: int, p: nat)
    requires p > 0 && m * p == 0
    ensures m == 0
  {
  }

  lemma EqualsZeroIff(j: Json)
    ensures EqualsInt(j, 0) <==> IsZero(j)
  {
    if j.Float? && j.f.exponent >= 0 {
      PowerIsPositive(j.f.exponent);
      if IsInteger(j.f, 0) {
        ProductIsZero(j.f.mantissa, Pow2(j.f.exponent));
      }
    }
  }

  /** Equal to a number: as an integer, as a truth value, or as a float. */
  ghost predicate IsNumber(m: Fields, key: string, n: nat) {
    key in m && match m[key]
                case Int(i) => i == n
                case Bool(b) => n == if b then 1 else 0
                case Float(f) => IsInteger(f, n)
                case _ => false
  }

  // ----- Result records -----

  /** What one result record must say of its case. */
  ghost predicate PassingRecord(m: Fields, phase: string, node: string) {
    && Is(m, "schema", "docmirror.personal_detail.final_audit_node_result.v1")
    && Is(m, "phase", phase) && Is(m, "node", node) && Is(m, "status", "passed")
    && "exit_code" in m && IsZero(m["exit_code"])
    && ("errors" in m ==> IsEmpty(m["errors"]))
  }

  lemma PassIff(m: Fields, phase: string, c: Case)
    ensures IsPass(Dict(m), phase, c) <==> PassingRecord(m, phase, c.node)
  {
    TruthyIff(ValueOf(m, "errors"));
    EqualsZeroIff(ValueOf(m, "exit_code"));
  }

  /** A textual case id is taken as it is. */
  lemma CaseIdIsText(w: World, m: Fields, id: string)
    requires Is(m, "case_id", id)
    ensures CaseId(w, Dict(m)) == id
  {
  }

  /** Record j belongs to the i-th case and says that it passed. */
  ghost predicate Proves(w: World, k: Contract, records: seq<Json>, j: nat, i: nat) {
    && i < |k.live| + |k.saved| && j < |records|
    && var c := (k.live + k.saved)[i];
       && records[j].Dict? && CaseId(w, records[j]) == c.id
       && PassingRecord(records[j].fields, if i < |k.live| then "live" else "saved", c.node)
  }

  ghost predicate RecordProves(w: World, k: Contract, records: seq<Json>, j: nat) {
    exists i: nat :: Proves(w, k, records, j, i)
  }

  ghost predicate CaseProved(w: World, k: Contract, records: seq<Json>, i: nat) {
    exists j: nat :: Proves(w, k, records, j, i)
  }

  /** There is one record per case, and it says that the case passed. */
  ghost predicate PassingCatalog(w: World, k: Contract, records: seq<Json>) {
    && (forall j: nat | j < |records| :: RecordProves(w, k, records, j))
    && (forall i: nat | i < |k.live| + |k.saved| :: CaseProved(w, k, records, i))
    && (forall a, b | 0 <= a < b < |records| :: records[a].Dict? && records[b].Dict? && CaseId(w, records[a]) != CaseId(w, records[b]))
  }

  lemma CaseOfId(k: Contract, id: string) returns (i: nat)
    requires IsCaseId(k, id)
    ensures i < |AllCases(k)| && AllCases(k)[i].id == id
  {
    IdIsListed(k, id);
    i :| 0 <= i < |AllCases(k)| && AllCases(k)[i].id == id;
  }

  lemma IdOfCase(k: Contract, i: nat)
    requires i < |AllCases(k)|
    ensures IsCaseId(k, AllCases(k)[i].id)
  {
    IdIsListed(k, AllCases(k)[i].id);
  }

  /** The record of a case among valid ones. */
  lemma ProofOfCase(w: World, k: Contract, records: seq<Json>, i: nat) returns (j: nat)
    requires ValidRecords(w, k, records) && i < |AllCases(k)|
    ensures Proves(w, k, records, j, i)
  {
    CaseAt(k, i);
    var c := AllCases(k)[i];
    assert HasPass(w, records, PhaseOf(k, i), c);
    j :| j < |records| && records[j].Dict? && CaseId(w, records[j]) == c.id && IsPass(records[j], PhaseOf(k, i), c);
    PassIff(records[j].fields, PhaseOf(k, i), c);
  }

  /** Among valid records the one with the id of a case says that the case passed: schema, phase, node, status, exit code
      and errors are as they must be. */
  lemma RecordOfCasePasses(w: World, k: Contract, records: seq<Json>, i: nat, j: nat)
    requires ValidRecords(w, k, records) && i < |k.live| + |k.saved| && j < |records|
    requires records[j].Dict? && CaseId(w, records[j]) == (k.live + k.saved)[i].id
    ensures PassingRecord(records[j].fields, if i < |k.live| then "live" else "saved", (k.live + k.saved)[i].node)
  {
    var a := ProofOfCase(w, k, records, i);
    assert a == j;
  }

  lemma ValidIsCatalog(w: World, k: Contract, records: seq<Json>)
    requires ValidRecords(w, k, records)
    ensures PassingCatalog(w, k, records)
  {
    forall i: nat | i < |k.live| + |k.saved| ensures CaseProved(w, k, records, i) {
      var j := ProofOfCase(w, k, records, i);
    }
    forall j: nat | j < |records| ensures RecordProves(w, k, records, j) {
      var i := CaseOfId(k, CaseId(w, records[j]));
      RecordOfCasePasses(w, k, records, i, j);
      assert Proves(w, k, records, j, i);
    }
  }

  lemma CatalogIsValid(w: World, k: Contract, records: seq<Json>)
    requires PassingCatalog(w, k, records)
    ensures ValidRecords(w, k, records)
  {
    forall j: nat | j < |records| ensures records[j].Dict? && IsCaseId(k, CaseId(w, records[j])) {
      assert RecordProves(w, k, records, j);
      var i: nat :| Proves(w, k, records, j, i);
      IdOfCase(k, i);
    }
    forall c | c in k.live ensures HasPass(w, records, "live", c) {
      var i: nat :| i < |k.live| && k.live[i] == c;
      assert (k.live + k.saved)[i] == c;
      HeldByCatalog(w, k, records, i);
    }
    forall c | c in k.saved ensures HasPass(w, records, "saved", c) {
      var i: nat :| i < |k.saved| && k.saved[i] == c;
      assert (k.live + k.saved)[|k.live| + i] == c;
      HeldByCatalog(w, k, records, |k.live| + i);
    }
  }

  lemma HeldByCatalog(w: World, k: Contract, records: seq<Json>, i: nat)
    requires PassingCatalog(w, k, records) && i < |k.live| + |k.saved|
    ensures HasPass(w, records, if i < |k.live| then "live" else "saved", (k.live + k.saved)[i])
  {
    assert CaseProved(w, k, records, i);
    var j: nat :| Proves(w, k, records, j, i);
    PassIff(records[j].fields, if i < |k.live| then "live" else "saved", (k.live + k.saved)[i]);
  }

  /** `validate_result_records` succeeds exactly on one record per case that says, field by field, that the case passed. */
  lemma ValidIffCatalog(w: World, k: Contract, records: seq<Json>)
    ensures ValidRecords(w, k, records) <==> PassingCatalog(w, k, records)
  {
    if ValidRecords(w, k, records) {
      ValidIsCatalog(w, k, records);
    }
    if PassingCatalog(w, k, records) {
      CatalogIsValid(w, k, records);
    }
  }

  // ----- Snapshots -----

  /** The fingerprint of a part of a snapshot; none when the part is neither empty nor a dictionary. */
  ghost function Print(m: Fields, part: string): Option<Json> {
    if IsEmpty(ValueOf(m, part)) then Some(Null)
    else if m[part].Dict? then Some(ValueOf(m[part].fields, "fingerprint_sha256")) else None
  }

  ghost predicate SamePrint(a: Fields, b: Fields, part: string) {
    Print(a, part).Some? && Print(a, part) == Print(b, part)
  }

  ghost predicate SnapshotsAgree(a: Fields, b: Fields) {
    && Is(a, "schema", "docmirror.personal_detail.final_audit_snapshot.v1")
    && Is(b, "schema", "docmirror.personal_detail.final_audit_snapshot.v1")
    && SamePrint(a, b, "code") && SamePrint(a, b, "source_pdfs") && SamePrint(a, b, "runtime")
    && ValueOf(a, "composite_sha256") == ValueOf(b, "composite_sha256")
  }

  lemma PrintIs(m: Fields, part: string)
    ensures Fingerprint(Dict(m), part) == Print(m, part)
  {
    TruthyIff(ValueOf(m, part));
  }

  /** Snapshots match exactly if both have the schema, and the fingerprints of code, source PDFs and runtime and the
      composite one are the same. */
  lemma SnapshotsIff(a: Fields, b: Fields)
    ensures SnapshotsMatch(Dict(a), Dict(b)) <==> SnapshotsAgree(a, b)
  {
    PrintIs(a, "code");
    PrintIs(b, "code");
    PrintIs(a, "source_pdfs");
    PrintIs(b, "source_pdfs");
    PrintIs(a, "runtime");
    PrintIs(b, "runtime");
    assert Has(Dict(a), "schema", SNAPSHOT_SCHEMA) <==> Is(a, "schema", "docmirror.personal_detail.final_audit_snapshot.v1");
    assert Has(Dict(b), "schema", SNAPSHOT_SCHEMA) <==> Is(b, "schema", "docmirror.personal_detail.final_audit_snapshot.v1");
  }

  // ----- The manifest -----

  /** The part of the path after its last slash, or all of it, is the name, which has no slash itself. */
  ghost predicate IsNamed(path: string, name: string) {
    path == name || (|path| > |name| && path[|path| - |name| - 1..] == "/" + name)
  }

  /** A file the manifest must account for: not called like manifest or marker, and no temporary one. */
  ghost predicate IsArtifact(path: string) {
    && !IsNamed(path, "manifest.json") && !IsNamed(path, "AUDIT_COMPLETE.json")
    && !(|path| >= 4 && path[|path| - 4..] == ".tmp")
  }

  lemma NamedIff(path: string, name: string)
    requires forall i | 0 <= i < |name| :: name[i] != '/'
    ensures Name(path) == name <==> IsNamed(path, name)
  {
    NameIsSuffix(path);
    var n := |path| - |Name(path)|;
    if Name(path) == name && n > 0 {
      assert path[n - 1..] == [path[n - 1]] + path[n..];
      assert "/" + name == path[n - 1..];
    }
    if IsNamed(path, name) {
      NamedHere(path, name);
    }
  }

  lemma NamedHere(path: string, name: string)
    requires IsNamed(path, name) && forall i | 0 <= i < |name| :: name[i] != '/'
    ensures Name(path) == name
  {
    if path == name {
      TopLevelName(name);
    } else {
      var m := |path| - |name|;
      assert path[m - 1] == ("/" + name)[0] == '/';
      assert path[m..] == path[m - 1..][1..] == name;
      assert path == path[..m] + path[m..];
      NameAfterSlash(path[..m], name);
    }
  }

  lemma TemporaryIff(path: string)
    ensures IsTemporary(path) <==> |path| >= 4 && path[|path| - 4..] == ".tmp"
  {
    NameIsSuffix(path);
    var n := |path| - |Name(path)|;
    if |path| >= 4 && path[|path| - 4..] == ".tmp" {
      assert forall i | 0 <= i < 4 :: path[|path| - 4 + i] == ".tmp"[i] != '/';
      assert n <= |path| - 4;
      assert Name(path)[|Name(path)| - 4..] == path[|path| - 4..];
    }
    if IsTemporary(path) {
      assert path[|path| - 4..] == Name(path)[|Name(path)| - 4..];
    }
  }

  lemma ArtifactIff(path: string)
    ensures IsEvidence(path) <==> IsArtifact(path)
  {
    NamedIff(path, "manifest.json");
    NamedIff(path, "AUDIT_COMPLETE.json");
    TemporaryIff(path);
  }

  /** The temporary file of an atomic write is in the same folder. */
  lemma TemporaryIs(folder: string, name: string)
    requires folder == "" || folder[|folder| - 1] == '/'
    requires forall i | 0 <= i < |name| :: name[i] != '/'
    ensures TemporaryFor(folder + name) == folder + ("." + name + ".tmp")
  {
    NameAfterSlash(folder, name);
    assert (folder + name)[..|folder|] == folder;
  }

  /** A textual path of a row is taken as it is. */
  lemma RecordPathIsText(w: World, m: Fields, path: string)
    requires Is(m, "path", path)
    ensures RecordPath(w, Dict(m)) == path
  {
  }

  ghost predicate AreRows(rows: seq<Json>) {
    forall i | 0 <= i < |rows| :: rows[i].Dict?
  }

  /** The row that counts for a path is the last one. */
  ghost predicate IsLastRow(w: World, rows: seq<Json>, path: string, i: nat)
    requires AreRows(rows)
  {
    i < |rows| && RecordPath(w, rows[i]) == path && forall j | i < j < |rows| :: RecordPath(w, rows[j]) != path
  }

  lemma {:induction false} LastRow(w: World, rows: seq<Json>, path: string) returns (i: nat)
    requires AreRows(rows) && path in ByPath(w, rows)
    ensures IsLastRow(w, rows, path, i) && ByPath(w, rows)[path] == rows[i]
  {
    var n := |rows| - 1;
    if RecordPath(w, rows[n]) == path {
      i := n;
    } else {
      i := LastRow(w, rows[..n], path);
    }
  }

  lemma {:induction false} LastRowCounts(w: World, rows: seq<Json>, path: string, i: nat)
    requires AreRows(rows) && IsLastRow(w, rows, path, i)
    ensures path in ByPath(w, rows) && ByPath(w, rows)[path] == rows[i]
  {
    var n := |rows| - 1;
    if i < n {
      LastRowCounts(w, rows[..n], path, i);
    }
  }

  lemma {:induction false} RowIsListed(w: World, rows: seq<Json>, i: nat)
    requires AreRows(rows) && i < |rows|
    ensures RecordPath(w, rows[i]) in ByPath(w, rows)
  {
    var n := |rows| - 1;
    if i < n {
      RowIsListed(w, rows[..n], i);
    }
  }

  /** The file has the size and the hash that the row says. */
  ghost predicate RowTells(w: World, d: Directory, row: Json, path: string)
    requires row.Dict? && path in d
  {
    IsNumber(row.fields, "bytes", |d[path]|) && Is(row.fields, "sha256", w.hash(d[path]))
  }

  ghost predicate RowHolds(w: World, d: Directory, rows: seq<Json>, path: string)
    requires AreRows(rows) && path in d
  {
    exists i: nat :: IsLastRow(w, rows, path, i) && RowTells(w, d, rows[i], path)
  }

  /** The rows account for the artifacts of the directory and nothing else. */
  ghost predicate RowsMatch(w: World, d: Directory, rows: seq<Json>) {
    && AreRows(rows)
    && (forall i | 0 <= i < |rows| :: RecordPath(w, rows[i]) in d && IsArtifact(RecordPath(w, rows[i])))
    && (forall path | path in d && IsArtifact(path) :: RowHolds(w, d, rows, path))
  }

  /** What iterating over a value that may be missing or empty yields. */
  ghost predicate ListedOrEmpty(m: Fields, key: string, items: seq<Json>) {
    (IsEmpty(ValueOf(m, key)) && items == []) || (key in m && m[key] == List(items))
  }

  lemma ListedOrEmptyIff(m: Fields, key: string, items: seq<Json>)
    ensures ItemsOrNone(Dict(m), key) == Some(items) <==> ListedOrEmpty(m, key, items)
  {
    TruthyIff(ValueOf(m, key));
  }

  lemma RowIff(w: World, d: Directory, rows: seq<Json>, path: string, i: nat)
    requires AreRows(rows) && IsLastRow(w, rows, path, i) && path in d
    ensures path in ByPath(w, rows)
    ensures RecordHolds(w, d, path, ByPath(w, rows)[path]) <==> RowTells(w, d, rows[i], path)
  {
    LastRowCounts(w, rows, path, i);
  }

  lemma ManifestIff(w: World, d: Directory, manifest: Fields, rows: seq<Json>)
    requires ListedOrEmpty(manifest, "artifacts", rows)
    ensures ManifestHolds(w, d, Dict(manifest)) <==> RowsMatch(w, d, rows)
  {
    ListedOrEmptyIff(manifest, "artifacts", rows);
    forall path ensures IsEvidence(path) <==> IsArtifact(path) {
      ArtifactIff(path);
    }
    if ManifestHolds(w, d, Dict(manifest)) {
      HoldsMatches(w, d, rows);
    }
    if RowsMatch(w, d, rows) {
      MatchesHolds(w, d, rows);
    }
  }

  lemma HoldsMatches(w: World, d: Directory, rows: seq<Json>)
    requires AreRows(rows) && ByPath(w, rows).Keys == Evidence(d)
    requires forall path | path in ByPath(w, rows) :: RecordHolds(w, d, path, ByPath(w, rows)[path])
    requires forall path :: IsEvidence(path) <==> IsArtifact(path)
    ensures RowsMatch(w, d, rows)
  {
    forall i: nat | i < |rows| ensures RecordPath(w, rows[i]) in d && IsArtifact(RecordPath(w, rows[i])) {
      RowIsListed(w, rows, i);
      assert RecordPath(w, rows[i]) in Evidence(d);
    }
    forall path | path in d && IsArtifact(path) ensures RowHolds(w, d, rows, path) {
      assert path in Evidence(d);
      var i := LastRow(w, rows, path);
      RowIff(w, d, rows, path, i);
    }
  }

  lemma MatchesHolds(w: World, d: Directory, rows: seq<Json>)
    requires RowsMatch(w, d, rows)
    requires forall path :: IsEvidence(path) <==> IsArtifact(path)
    ensures ByPath(w, rows).Keys == Evidence(d)
    ensures forall path | path in ByPath(w, rows) :: RecordHolds(w, d, path, ByPath(w, rows)[path])
  {
    forall path ensures path in ByPath(w, rows) <==> path in Evidence(d) {
      if path in ByPath(w, rows) {
        var i := LastRow(w, rows, path);
      }
      if path in Evidence(d) {
        assert RowHolds(w, d, rows, path);
        var i: nat :| IsLastRow(w, rows, path, i) && RowTells(w, d, rows[i], path);
        RowIff(w, d, rows, path, i);
      }
    }
    forall path | path in ByPath(w, rows) ensures RecordHolds(w, d, path, ByPath(w, rows)[path]) {
      assert path in Evidence(d) && RowHolds(w, d, rows, path);
      var i: nat :| IsLastRow(w, rows, path, i) && RowTells(w, d, rows[i], path);
      RowIff(w, d, rows, path, i);
    }
  }

  // ----- The completed audit -----

  /** The file holds a JSON object with these fields. */
  ghost predicate Reads(w: World, d: Directory, path: string, m: Fields) {
    path in d && w.decode(d[path]) == Some(Dict(m))
  }

  /** What iterating over a value that may be missing yields. */
  ghost predicate Listed(m: Fields, key: string, items: seq<Json>) {
    if key in m then m[key] == List(items) || (items == [] && (m[key] == Dict(map[]) || m[key] == Str(""))) else items == []
  }

  lemma ListedIff(m: Fields, key: string, items: seq<Json>)
    ensures Items(Dict(m), key) == Some(items) <==> Listed(m, key, items)
  {
  }

  /** The five files that verification reads, and the lists in them. */
  datatype Files = Files(manifest: Fields, marker: Fields, matrix: Fields, baseline: Fields, end: Fields,
                         rows: seq<Json>, live: seq<Json>, saved: seq<Json>)

  ghost predicate AreFiles(w: World, d: Directory, f: Files) {
    && Reads(w, d, "manifest.json", f.manifest) && Reads(w, d, "AUDIT_COMPLETE.json", f.marker)
    && Reads(w, d, "result-matrix.json", f.matrix)
    && Reads(w, d, "snapshots/00-pre.json", f.baseline) && Reads(w, d, "snapshots/99-end.json", f.end)
    && ListedOrEmpty(f.manifest, "artifacts", f.rows)
    && Listed(f.matrix, "live_results", f.live) && Listed(f.matrix, "saved_results", f.saved)
  }

  /** The marker authenticates the other files and says that every case has passed. */
  ghost predicate MarkerTells(w: World, k: Contract, d: Directory, f: Files)
    requires "manifest.json" in d && "result-matrix.json" in d
  {
    && Is(f.manifest, "schema", "docmirror.personal_detail.final_audit_manifest.v1")
    && Is(f.marker, "schema", "docmirror.personal_detail.final_audit_completion.v1")
    && Is(f.marker, "status", "complete")
    && Is(f.marker, "manifest_sha256", w.hash(d["manifest.json"]))
    && Is(f.marker, "result_matrix_sha256", w.hash(d["result-matrix.json"]))
    && IsNumber(f.marker, "live_expected", |k.live|) && IsNumber(f.marker, "live_passed", |k.live|)
    && IsNumber(f.marker, "saved_expected", |k.saved|) && IsNumber(f.marker, "saved_passed", |k.saved|)
    && ValueOf(f.marker, "baseline_composite_sha256") == ValueOf(f.baseline, "composite_sha256")
    && ValueOf(f.marker, "end_composite_sha256") == ValueOf(f.end, "composite_sha256")
  }

  ghost predicate MatrixTells(w: World, k: Contract, f: Files) {
    && Is(f.matrix, "schema", "docmirror.personal_detail.final_audit_result_matrix.v1")
    && "complete" in f.matrix && f.matrix["complete"] == Bool(true)
    && PassingCatalog(w, k, f.live + f.saved)
  }

  lemma MarkerIff(w: World, k: Contract, d: Directory, f: Files)
    requires AreFiles(w, d, f)
    ensures MarkerTells(w, k, d, f) && SnapshotsAgree(f.baseline, f.end) <==>
            && MarkerHolds(w, k, d, Dict(f.manifest), Dict(f.marker))
            && SnapshotsHold(Dict(f.baseline), Dict(f.end), Dict(f.marker))
  {
    SnapshotsIff(f.baseline, f.end);
  }

  lemma MatrixIff(w: World, k: Contract, d: Directory, f: Files)
    requires AreFiles(w, d, f)
    ensures MatrixTells(w, k, f) <==> MatrixHolds(w, k, Dict(f.matrix))
  {
    ListedIff(f.matrix, "live_results", f.live);
    ListedIff(f.matrix, "saved_results", f.saved);
    ValidIffCatalog(w, k, f.live + f.saved);
  }

  /** `verify_completed_audit` succeeds exactly if, field by field, the marker, the matrix, the snapshots and the manifest
      say what they must. */
  lemma VerifiedIff(w: World, k: Contract, d: Directory, f: Files)
    requires AreFiles(w, d, f)
    ensures Verified(w, k, d) <==>
            && MarkerTells(w, k, d, f) && MatrixTells(w, k, f)
            && SnapshotsAgree(f.baseline, f.end) && RowsMatch(w, d, f.rows)
  {
    MarkerIff(w, k, d, f);
    MatrixIff(w, k, d, f);
    ManifestIff(w, d, f.manifest, f.rows);
  }

  /** A directory that verifies has the five files. */
  lemma VerifiedHasFiles(w: World, k: Contract, d: Directory) returns (f: Files)
    requires Verified(w, k, d)
    ensures AreFiles(w, d, f)
  {
    var manifest, marker, matrix := ReadJson(w, d, MANIFEST).value, ReadJson(w, d, MARKER).value, ReadJson(w, d, MATRIX).value;
    var baseline, end := ReadJson(w, d, BASELINE).value, ReadJson(w, d, END).value;
    var rows := ItemsOrNone(manifest, "artifacts").value;
    var live, saved := Items(matrix, "live_results").value, Items(matrix, "saved_results").value;
    ListedOrEmptyIff(manifest.fields, "artifacts", rows);
    ListedIff(matrix.fields, "live_results", live);
    ListedIff(matrix.fields, "saved_results", saved);
    f := Files(manifest.fields, marker.fields, matrix.fields, baseline.fields, end.fields, rows, live, saved);
  }

  /** A record in the matrix that has the id of a case and does not say that it passed is noticed. */
  lemma DefectIsNoticed(w: World, k: Contract, d: Directory, f: Files, i: nat, j: nat)
    requires AreFiles(w, d, f) && i < |k.live| + |k.saved| && j < |f.live + f.saved|
    requires var record := (f.live + f.saved)[j];
             && record.Dict? && CaseId(w, record) == (k.live + k.saved)[i].id
             && !PassingRecord(record.fields, if i < |k.live| then "live" else "saved", (k.live + k.saved)[i].node)
    ensures !Verified(w, k, d)
  {
    if Verified(w, k, d) {
      VerifiedIff(w, k, d, f);
      CatalogIsValid(w, k, f.live + f.saved);
      RecordOfCasePasses(w, k, f.live + f.saved, i, j);
    }
  }

  // ----- Finalizing -----

  /** Directly in the folder, with the ending of a JSON file. */
  ghost predicate IsJsonIn(path: string, folder: string) {
    && |path| >= |folder| && path[..|folder|] == folder && (forall i | |folder| <= i < |path| :: path[i] != '/')
    && |path| >= 5 && path[|path| - 5..] == ".json"
  }

  lemma JsonInIff(path: string, folder: string)
    requires |folder| > 0 && folder[|folder| - 1] == '/'
    ensures EndsWith(path, ".json") && path == folder + Name(path) <==> IsJsonIn(path, folder)
  {
    NameIsSuffix(path);
    if path == folder + Name(path) {
      assert path[..|folder|] == folder;
    }
    if IsJsonIn(path, folder) {
      assert path == folder + path[|folder|..];
      NameAfterSlash(folder, path[|folder|..]);
    }
  }

  lemma ResultFileIff(path: string)
    ensures IsResultFile(path) <==> IsJsonIn(path, "node-results/")
  {
    JsonInIff(path, "node-results/");
  }

  lemma SnapshotFileIff(path: string)
    ensures IsSnapshotFile(path) <==> IsJsonIn(path, "snapshots/")
  {
    JsonInIff(path, "snapshots/");
  }

  /** The result files hold one record per case that says that it passed; paths lists them in some order. */
  ghost predicate ResultsTell(w: World, k: Contract, d: Directory, paths: seq<string>, records: seq<Json>) {
    && (forall path :: path in paths <==> path in d && IsJsonIn(path, "node-results/"))
    && (forall i, j | 0 <= i < j < |paths| :: paths[i] != paths[j])
    && |records| == |paths| && (forall i | 0 <= i < |paths| :: w.decode(d[paths[i]]) == Some(records[i]))
    && PassingCatalog(w, k, records)
  }

  ghost predicate SomeResultsTell(w: World, k: Contract, d: Directory) {
    exists paths, records :: ResultsTell(w, k, d, paths, records)
  }

  lemma ResultsIff(w: World, k: Contract, d: Directory)
    ensures ResultsPass(w, k, d) <==> SomeResultsTell(w, k, d)
  {
    forall path ensures path in ResultFiles(d) <==> path in d && IsJsonIn(path, "node-results/") {
      ResultFileIff(path);
    }
    if ResultsPass(w, k, d) {
      var paths, records :| Lists(paths, ResultFiles(d)) && Contains(w, d, paths, records) && ValidRecords(w, k, records);
      ValidIsCatalog(w, k, records);
      forall i | 0 <= i < |paths| ensures paths[i] in d && w.decode(d[paths[i]]) == Some(records[i]) {
        assert paths[i] in ResultFiles(d);
      }
      assert ResultsTell(w, k, d, paths, records);
    }
    if SomeResultsTell(w, k, d) {
      var paths, records :| ResultsTell(w, k, d, paths, records);
      CatalogIsValid(w, k, records);
      forall i | 0 <= i < |paths| ensures ReadJson(w, d, paths[i]) == Some(records[i]) {
        assert paths[i] in paths;
      }
      assert Contains(w, d, paths, records);
    }
  }

  /** The snapshot at the path agrees with the baseline. */
  ghost predicate AgreesWith(w: World, d: Directory, path: string, baseline: Fields) {
    exists m: Fields :: Reads(w, d, path, m) && SnapshotsAgree(baseline, m)
  }

  lemma AgreesIff(w: World, d: Directory, path: string, baseline: Fields)
    ensures AgreesWith(w, d, path, baseline) <==>
            ReadJson(w, d, path).Some? && SnapshotsMatch(Dict(baseline), ReadJson(w, d, path).value)
  {
    if AgreesWith(w, d, path, baseline) {
      var m: Fields :| Reads(w, d, path, m) && SnapshotsAgree(baseline, m);
      SnapshotsIff(baseline, m);
    }
    if ReadJson(w, d, path).Some? && SnapshotsMatch(Dict(baseline), ReadJson(w, d, path).value) {
      var m := ReadJson(w, d, path).value.fields;
      SnapshotsIff(baseline, m);
      assert Reads(w, d, path, m);
    }
  }

  ghost predicate CheckpointsAgree(w: World, k: Contract, d: Directory, baseline: Fields) {
    && (forall path :: path in k.snapshots <==> path in d && IsJsonIn(path, "snapshots/"))
    && (forall path | path in k.snapshots && path != "snapshots/00-pre.json" :: AgreesWith(w, d, path, baseline))
  }

  lemma CheckpointsIff(w: World, k: Contract, d: Directory, baseline: Fields)
    ensures CheckpointsHold(w, k, d, Dict(baseline)) <==> CheckpointsAgree(w, k, d, baseline)
  {
    forall path ensures IsSnapshotFile(path) <==> IsJsonIn(path, "snapshots/") {
      SnapshotFileIff(path);
    }
    forall path
      ensures AgreesWith(w, d, path, baseline) <==>
              ReadJson(w, d, path).Some? && SnapshotsMatch(Dict(baseline), ReadJson(w, d, path).value)
    {
      AgreesIff(w, d, path, baseline);
    }
    assert CheckpointsHold(w, k, d, Dict(baseline)) ==> CheckpointsAgree(w, k, d, baseline) by {
      if CheckpointsHold(w, k, d, Dict(baseline)) {
        forall path ensures path in k.snapshots <==> path in d && IsJsonIn(path, "snapshots/") {
          assert path in k.snapshots <==> path in (set p | p in d && IsSnapshotFile(p));
        }
      }
    }
  }

  /** The source PDFs captured at the end have the fingerprint of the baseline. */
  ghost predicate SourcesAgree(sourcePdfs: Option<Json>, baseline: Fields) {
    && sourcePdfs.Some? && sourcePdfs.value.Dict? && "fingerprint_sha256" in sourcePdfs.value.fields
    && "source_pdfs" in baseline && baseline["source_pdfs"].Dict? && "fingerprint_sha256" in baseline["source_pdfs"].fields
    && baseline["source_pdfs"].fields["fingerprint_sha256"] == sourcePdfs.value.fields["fingerprint_sha256"]
  }

  /** Nothing is left over from an earlier or an interrupted run. */
  ghost predicate IsFresh(d: Directory) {
    && "AUDIT_COMPLETE.json" !in d && "manifest.json" !in d
    && forall path | path in d :: !(|path| >= 4 && path[|path| - 4..] == ".tmp")
  }

  lemma FreshIff(d: Directory)
    ensures MARKER !in d && MANIFEST !in d && NoTemporaries(d) <==> IsFresh(d)
  {
    forall path ensures IsTemporary(path) <==> |path| >= 4 && path[|path| - 4..] == ".tmp" {
      TemporaryIff(path);
    }
  }

  ghost predicate HasReports(w: World, k: Contract, d: Directory) {
    forall c | c in k.live :: w.report(d, c).Some?
  }

  lemma EvidenceParts(w: World, k: Contract, d: Directory, baseline: Fields, end: Fields)
    requires ReadJson(w, d, BASELINE) == Some(Dict(baseline)) && ReadJson(w, d, END) == Some(Dict(end))
    ensures EvidenceIsThere(w, k, d) <==>
            && (MARKER !in d && MANIFEST !in d && NoTemporaries(d))
            && SnapshotsMatch(Dict(baseline), Dict(end)) && CheckpointsHold(w, k, d, Dict(baseline))
            && ResultsPass(w, k, d) && HasReports(w, k, d)
            && "composite_sha256" in baseline && "composite_sha256" in end
  {
  }

  lemma EvidenceIff(w: World, k: Contract, d: Directory, baseline: Fields, end: Fields)
    requires ReadJson(w, d, BASELINE) == Some(Dict(baseline)) && ReadJson(w, d, END) == Some(Dict(end))
    ensures EvidenceIsThere(w, k, d) <==>
            && IsFresh(d) && SnapshotsAgree(baseline, end) && CheckpointsAgree(w, k, d, baseline)
            && SomeResultsTell(w, k, d) && HasReports(w, k, d)
            && "composite_sha256" in baseline && "composite_sha256" in end
  {
    EvidenceParts(w, k, d, baseline, end);
    FreshIff(d);
    SnapshotsIff(baseline, end);
    CheckpointsIff(w, k, d, baseline);
    ResultsIff(w, k, d);
  }

  lemma SourcesIff(sourcePdfs: Option<Json>, baseline: Fields)
    ensures SameSources(sourcePdfs, Dict(baseline)) <==> SourcesAgree(sourcePdfs, baseline)
  {
  }

  /** `finalize_audit` succeeds exactly if nothing is left over, the end of the run and every checkpoint agree with the
      baseline, the results and the reports are complete, the catalog of files is as expected, and the source PDFs are. */
  lemma FinalizableIff(w: World, k: Contract, d: Directory, sourcePdfs: Option<Json>, baseline: Fields, end: Fields)
    requires Reads(w, d, "snapshots/00-pre.json", baseline) && Reads(w, d, "snapshots/99-end.json", end)
    ensures CanFinalize(w, k, d, sourcePdfs) <==>
            && IsFresh(d) && SnapshotsAgree(baseline, end) && CheckpointsAgree(w, k, d, baseline)
            && SomeResultsTell(w, k, d) && HasReports(w, k, d)
            && "composite_sha256" in baseline && "composite_sha256" in end
            && d.Keys + {"result-matrix.json"} == k.catalog && SourcesAgree(sourcePdfs, baseline)
  {
    assert ReadJson(w, d, BASELINE) == Some(Dict(baseline)) && ReadJson(w, d, END) == Some(Dict(end));
    EvidenceIff(w, k, d, baseline, end);
    SourcesIff(sourcePdfs, baseline);
  }

  /** A result file with the id of a case that does not say that it passed keeps the audit from being finalized. */
  lemma DefectBlocksFinalizing(w: World, k: Contract, d: Directory, sourcePdfs: Option<Json>, path: string, m: Fields, i: nat)
    requires IsJsonIn(path, "node-results/") && Reads(w, d, path, m) && i < |k.live| + |k.saved|
    requires CaseId(w, Dict(m)) == (k.live + k.saved)[i].id
    requires !PassingRecord(m, if i < |k.live| then "live" else "saved", (k.live + k.saved)[i].node)
    ensures !CanFinalize(w, k, d, sourcePdfs)
  {
    if ResultsPass(w, k, d) {
      ResultsIff(w, k, d);
      var paths, records :| ResultsTell(w, k, d, paths, records);
      var a: nat :| a < |paths| && paths[a] == path;
      CatalogIsValid(w, k, records);
      assert records[a] == Dict(m);
      RecordOfCasePasses(w, k, records, i, a);
    }
  }

  /** Whatever of the two snapshots differs in one of the compared fingerprints, or lacks the schema, is noticed. */
  lemma DriftIsNoticed(w: World, k: Contract, d: Directory, sourcePdfs: Option<Json>, baseline: Fields, end: Fields)
    requires Reads(w, d, "snapshots/00-pre.json", baseline) && Reads(w, d, "snapshots/99-end.json", end)
    requires || !Is(baseline, "schema", "docmirror.personal_detail.final_audit_snapshot.v1")
             || !Is(end, "schema", "docmirror.personal_detail.final_audit_snapshot.v1")
             || Print(baseline, "code") != Print(end, "code") || Print(baseline, "source_pdfs") != Print(end, "source_pdfs")
             || Print(baseline, "runtime") != Print(end, "runtime")
             || ValueOf(baseline, "composite_sha256") != ValueOf(end, "composite_sha256")
    ensures !Verified(w, k, d) && !CanFinalize(w, k, d, sourcePdfs)
  {
    SnapshotsIff(baseline, end);
    assert !SnapshotsAgree(baseline, end);
    assert ReadJson(w, d, BASELINE) == Some(Dict(baseline)) && ReadJson(w, d, END) == Some(Dict(end));
  }
}
