/** A JSON codec and a hash as the results on the audit directory ask for them: they can be met. The codec writes every
    number in unary, so that no part needs a delimiter. */
module AttestationWorld {
  import opened Sequences
  import opened Options
  import opened JsonValue
  import opened Attestation
  import opened AuditDirectory

  // ----- Encoding, in front of the bytes that follow -----

  function WithNat(n: nat, rest: Bytes): Bytes {
    if n == 0 then [0] + rest else [1] + WithNat(n - 1, rest)
  }

  function WithInt(i: int, rest: Bytes): Bytes {
    if i < 0 then WithNat(1, WithNat(-i, rest)) else WithNat(0, WithNat(i, rest))
  }

  function WithChars(s: string, rest: Bytes): Bytes {
    if |s| == 0 then rest else WithNat(s[0] as int, WithChars(s[1..], rest))
  }

  function WithText(s: string, rest: Bytes): Bytes {
    WithNat(|s|, WithChars(s, rest))
  }

  /** The keys of a dictionary in some order, the same one for the same keys. */
  ghost function Listed(keys: set<string>): (r: seq<string>)
    ensures forall k :: k in r <==> k in keys
  {
    if keys == {} then [] else var k :| k in keys; [k] + Listed(keys - {k})
  }

  ghost function With(j: Json, rest: Bytes): Bytes
    decreases j, 1
  {
    match j
    case Null => WithNat(0, rest)
    case Bool(b) => WithNat(1, WithNat(if b then 1 else 0, rest))
    case Int(i) => WithNat(2, WithInt(i, rest))
    case Float(f) => WithNat(3, WithInt(f.mantissa, WithInt(f.exponent, rest)))
    case Str(s) => WithNat(4, WithText(s, rest))
    case List(items) => WithNat(5, WithNat(|items|, WithAll(items, rest)))
    case Dict(fields) => WithNat(6, WithNat(|Listed(fields.Keys)|, WithEntries(j, Listed(fields.Keys), rest)))
  }

  ghost function WithAll(items: seq<Json>, rest: Bytes): Bytes
    decreases items, 0
  {
    if |items| == 0 then rest else With(items[0], WithAll(items[1..], rest))
  }

  ghost function WithEntries(j: Json, keys: seq<string>, rest: Bytes): Bytes
    requires j.Dict? && forall k | k in keys :: k in j.fields
    decreases j, 0, |keys|
  {
    if |keys| == 0 then rest
    else WithText(keys[0], With(j.fields[keys[0]], WithEntries(j, keys[1..], rest)))
  }

  // ----- Nothing is lost -----

  lemma {:induction false} NatBack(m: nat, n: nat, s: Bytes, t: Bytes)
    requires WithNat(m, s) == WithNat(n, t)
    ensures m == n && s == t
  {
    assert WithNat(m, s)[0] == WithNat(n, t)[0];
    if m > 0 {
      assert WithNat(m, s)[1..] == WithNat(m - 1, s) && WithNat(n, t)[1..] == WithNat(n - 1, t);
      NatBack(m - 1, n - 1, s, t);
    } else {
      assert WithNat(m, s)[1..] == s && WithNat(n, t)[1..] == t;
    }
  }

  lemma IntBack(i: int, j: int, s: Bytes, t: Bytes)
    requires WithInt(i, s) == WithInt(j, t)
    ensures i == j && s == t
  {
    NatBack(if i < 0 then 1 else 0, if j < 0 then 1 else 0, WithNat(if i < 0 then -i else i, s), WithNat(if j < 0 then -j else j, t));
    NatBack(if i < 0 then -i else i, if j < 0 then -j else j, s, t);
  }

  lemma {:induction false} CharsBack(a: string, b: string, s: Bytes, t: Bytes)
    requires |a| == |b| && WithChars(a, s) == WithChars(b, t)
    ensures a == b && s == t
  {
    if |a| > 0 {
      NatBack(a[0] as int, b[0] as int, WithChars(a[1..], s), WithChars(b[1..], t));
      CharsBack(a[1..], b[1..], s, t);
      assert a == [a[0]] + a[1..] && b == [b[0]] + b[1..];
    }
  }

  lemma TextBack(a: string, b: string, s: Bytes, t: Bytes)
    requires WithText(a, s) == WithText(b, t)
    ensures a == b && s == t
  {
    NatBack(|a|, |b|, WithChars(a, s), WithChars(b, t));
    CharsBack(a, b, s, t);
  }

  function Tag(j: Json): nat {
    match j
    case Null => 0
    case Bool(_) => 1
    case Int(_) => 2
    case Float(_) => 3
    case Str(_) => 4
    case List(_) => 5
    case Dict(_) => 6
  }

  ghost function Payload(j: Json, rest: Bytes): Bytes {
    match j
    case Null => rest
    case Bool(b) => WithNat(if b then 1 else 0, rest)
    case Int(i) => WithInt(i, rest)
    case Float(f) => WithInt(f.mantissa, WithInt(f.exponent, rest))
    case Str(s) => WithText(s, rest)
    case List(items) => WithNat(|items|, WithAll(items, rest))
    case Dict(fields) => WithNat(|Listed(fields.Keys)|, WithEntries(j, Listed(fields.Keys), rest))
  }

  lemma TagBack(a: Json, b: Json, s: Bytes, t: Bytes)
    requires With(a, s) == With(b, t)
    ensures Tag(a) == Tag(b) && Payload(a, s) == Payload(b, t)
  {
    assert With(a, s) == WithNat(Tag(a), Payload(a, s)) && With(b, t) == WithNat(Tag(b), Payload(b, t));
    NatBack(Tag(a), Tag(b), Payload(a, s), Payload(b, t));
  }

  /** The bytes of a value determine the value, and where they end. */
  lemma {:induction false} ValueBack(a: Json, b: Json, s: Bytes, t: Bytes)
    requires With(a, s) == With(b, t)
    ensures a == b && s == t
    decreases a, 1
  {
    TagBack(a, b, s, t);
    match a
    case Null =>
    case Bool(x) => NatBack(if x then 1 else 0, if b.b then 1 else 0, s, t);
    case Int(i) => IntBack(i, b.i, s, t);
    case Float(f) =>
      IntBack(f.mantissa, b.f.mantissa, WithInt(f.exponent, s), WithInt(b.f.exponent, t));
      IntBack(f.exponent, b.f.exponent, s, t);
    case Str(x) => TextBack(x, b.s, s, t);
    case List(items) =>
      NatBack(|items|, |b.items|, WithAll(items, s), WithAll(b.items, t));
      AllBack(items, b.items, s, t);
    case Dict(fields) => DictBack(a, b, s, t);
  }

  lemma {:induction false} AllBack(a: seq<Json>, b: seq<Json>, s: Bytes, t: Bytes)
    requires |a| == |b| && WithAll(a, s) == WithAll(b, t)
    ensures a == b && s == t
    decreases a, 0
  {
    if |a| > 0 {
      ValueBack(a[0], b[0], WithAll(a[1..], s), WithAll(b[1..], t));
      AllBack(a[1..], b[1..], s, t);
      assert a == [a[0]] + a[1..] && b == [b[0]] + b[1..];
    }
  }

  lemma {:induction false} DictBack(a: Json, b: Json, s: Bytes, t: Bytes)
    requires a.Dict? && b.Dict? && Payload(a, s) == Payload(b, t)
    ensures a == b && s == t
    decreases a, 0, |Listed(a.fields.Keys)| + 1
  {
    var ks, ls := Listed(a.fields.Keys), Listed(b.fields.Keys);
    NatBack(|ks|, |ls|, WithEntries(a, ks, s), WithEntries(b, ls, t));
    EntriesBack(a, b, ks, ls, s, t);
    assert forall k :: k in a.fields <==> k in ks;
    assert forall k :: k in b.fields <==> k in ls;
    assert a.fields == b.fields;
  }

  lemma {:induction false} EntriesBack(a: Json, b: Json, ks: seq<string>, ls: seq<string>, s: Bytes, t: Bytes)
    requires a.Dict? && (forall k | k in ks :: k in a.fields) && b.Dict? && (forall k | k in ls :: k in b.fields)
    requires |ks| == |ls| && WithEntries(a, ks, s) == WithEntries(b, ls, t)
    ensures ks == ls && s == t && forall k | k in ks :: a.fields[k] == b.fields[k]
    decreases a, 0, |ks|
  {
    if |ks| > 0 {
      var x, y := a.fields[ks[0]], b.fields[ls[0]];
      TextBack(ks[0], ls[0], With(x, WithEntries(a, ks[1..], s)), With(y, WithEntries(b, ls[1..], t)));
      ValueBack(x, y, WithEntries(a, ks[1..], s), WithEntries(b, ls[1..], t));
      EntriesBack(a, b, ks[1..], ls[1..], s, t);
      assert ks == [ks[0]] + ks[1..] && ls == [ls[0]] + ls[1..];
    }
  }

  // ----- A world -----

  ghost function Encode(j: Json): Bytes {
    With(j, [])
  }

  ghost predicate Encodes(j: Json, b: Bytes) {
    Encode(j) == b
  }

  ghost function Decode(b: Bytes): Option<Json> {
    if exists j :: Encodes(j, b) then var j :| Encodes(j, b); Some(j) else None
  }

  function Digest(b: Bytes): (r: string)
    ensures |r| == |b| && forall i | 0 <= i < |b| :: r[i] == b[i] as char
  {
    seq(|b|, i requires 0 <= i < |b| => b[i] as char)
  }

  ghost function ModelWorld(show: Json -> string, report: (Directory, Case) -> Option<Json>): World {
    World(j => Encode(j), b => Decode(b), b => Digest(b), show, report)
  }

  /** Some codec reads back what it wrote and some hash is injective, whatever `str()` and the validation of pairs do. */
  lemma WorldExists(show: Json -> string, report: (Directory, Case) -> Option<Json>)
    ensures RoundTrips(ModelWorld(show, report)) && InjectiveHash(ModelWorld(show, report))
  {
    forall j ensures Decode(Encode(j)) == Some(j) {
      assert Encodes(j, Encode(j));
      var k := Decode(Encode(j)).value;
      ValueBack(k, j, [], []);
    }
    forall a, b | Digest(a) == Digest(b) ensures a == b {
      assert forall i | 0 <= i < |a| :: Digest(a)[i] == Digest(b)[i];
    }
  }

  // ----- An audit that can be finalized -----

  function Part(fingerprint: string): Json {
    Dict(map["fingerprint_sha256" := Str(fingerprint)])
  }

  function Snapshot(code: string, pdfs: string, runtime: string, composite: string): Json {
    Dict(map["schema" := SNAPSHOT_SCHEMA, "code" := Part(code), "source_pdfs" := Part(pdfs), "runtime" := Part(runtime),
             "composite_sha256" := Str(composite)])
  }

  lemma SnapshotMatches(code: string, pdfs: string, runtime: string, composite: string)
    ensures var s := Snapshot(code, pdfs, runtime, composite); SnapshotsMatch(s, s) && HasKey(s, "composite_sha256")
    ensures SameSources(Some(Part(pdfs)), Snapshot(code, pdfs, runtime, composite))
  {
    assert Truthy(Part(code)) && Truthy(Part(pdfs)) && Truthy(Part(runtime)) by {
      assert "fingerprint_sha256" in Part(code).fields && "fingerprint_sha256" in Part(pdfs).fields
        && "fingerprint_sha256" in Part(runtime).fields;
    }
  }

  lemma SnapshotNames()
    ensures IsSnapshotFile(BASELINE) && IsSnapshotFile(END) && !IsResultFile(BASELINE) && !IsResultFile(END)
    ensures !IsTemporary(BASELINE) && !IsTemporary(END)
  {
    BaselineIsEvidence();
    EndIsEvidence();
    assert "snapshots/" + "00-pre.json" == BASELINE && "snapshots/" + "99-end.json" == END;
    NameAfterSlash("snapshots/", "00-pre.json");
    NameAfterSlash("snapshots/", "99-end.json");
    assert BASELINE[0] == 's' && END[0] == 's' && ("node-results/" + Name(BASELINE))[0] == 'n';
    assert ("node-results/" + Name(END))[0] == 'n';
    assert BASELINE[|BASELINE| - 5..] == ".json" && END[|END| - 5..] == ".json";
  }

  ghost function TwoSnapshots(w: World, snapshot: Json): Directory {
    map[BASELINE := w.encode(snapshot), END := w.encode(snapshot)]
  }

  function ResultPath(c: Case): string {
    "node-results/" + (c.id + ".json")
  }

  /** The record of a case that passed. */
  function PassRecord(phase: string, c: Case): (r: Json)
    ensures r.Dict?
  {
    Dict(map["schema" := NODE_RESULT_SCHEMA, "case_id" := Str(c.id), "phase" := Str(phase), "node" := Str(c.node),
             "status" := Str("passed"), "exit_code" := Int(0)])
  }

  function ResultPaths(k: Contract): (r: seq<string>)
    ensures |r| == |AllCases(k)| && forall i | 0 <= i < |r| :: r[i] == ResultPath(AllCases(k)[i])
  {
    seq(|AllCases(k)|, i requires 0 <= i < |AllCases(k)| => ResultPath(AllCases(k)[i]))
  }

  function PassRecords(k: Contract): (r: seq<Json>)
    ensures |r| == |AllCases(k)| && forall i | 0 <= i < |r| :: r[i] == PassRecord(PhaseOf(k, i), AllCases(k)[i])
  {
    seq(|AllCases(k)|, i requires 0 <= i < |AllCases(k)| => PassRecord(PhaseOf(k, i), AllCases(k)[i]))
  }

  /** The directory with the records written to the paths. */
  ghost function Filed(w: World, base: Directory, paths: seq<string>, records: seq<Json>): Directory
    requires |paths| == |records|
  {
    if |paths| == 0 then base
    else
      var n := |paths| - 1;
      Filed(w, base, paths[..n], records[..n])[paths[n] := w.encode(records[n])]
  }

  lemma {:induction false} FiledHolds(w: World, base: Directory, paths: seq<string>, records: seq<Json>)
    requires |paths| == |records| && (forall i | 0 <= i < |paths| :: paths[i] !in base)
    requires forall i, j | 0 <= i < j < |paths| :: paths[i] != paths[j]
    ensures var d := Filed(w, base, paths, records);
            && (forall p :: p in d <==> p in base || p in paths)
            && (forall p | p in base :: d[p] == base[p])
            && (forall i | 0 <= i < |paths| :: d[paths[i]] == w.encode(records[i]))
  {
    if |paths| > 0 {
      var n := |paths| - 1;
      FiledHolds(w, base, paths[..n], records[..n]);
      assert paths == paths[..n] + [paths[n]];
    }
  }

  // ----- Every contract can be met -----

  /** Distinct ids that can be file names, and a catalog of the two snapshots, a result file for every case, and the matrix. */
  ghost predicate IsProper(k: Contract) {
    && DistinctCases(k)
    && (forall i | 0 <= i < |AllCases(k)| :: IsFileName(AllCases(k)[i].id))
    && k.snapshots == {BASELINE, END}
    && (forall p :: p in k.catalog <==> p in {BASELINE, END, MATRIX} || p in ResultPaths(k))
  }

  predicate IsFileName(s: string) {
    s != "" && forall i | 0 <= i < |s| :: s[i] != '/'
  }

  lemma ResultNames(c: Case)
    requires IsFileName(c.id)
    ensures var p := ResultPath(c);
            IsResultFile(p) && !IsSnapshotFile(p) && !IsTemporary(p) && p != MARKER && p != MANIFEST && p != BASELINE && p != END
  {
    var p, name := ResultPath(c), c.id + ".json";
    NameAfterSlash("node-results/", name);
    assert p[0] == 'n' && MARKER[0] == 'A' && MANIFEST[0] == 'm' && BASELINE[0] == 's' && END[0] == 's';
    assert ("snapshots/" + Name(p))[0] == 's';
    assert name[|name| - 5..] == ".json" && name[|name| - 1] == 'n';
    assert p[|p| - 5..] == ".json";
    assert ".tmp"[3] == 'p' && |name| >= 4 ==> name[|name| - 4..][3] == 'n';
  }

  lemma PathsDiffer(k: Contract, i: nat, j: nat)
    requires DistinctCases(k) && i < j < |AllCases(k)|
    ensures ResultPaths(k)[i] != ResultPaths(k)[j]
  {
    var a, b := AllCases(k)[i].id, AllCases(k)[j].id;
    if ResultPaths(k)[i] == ResultPaths(k)[j] {
      TailIs("node-results/", a + ".json");
      TailIs("node-results/", b + ".json");
      HeadIs(a, ".json");
      HeadIs(b, ".json");
      assert false;
    }
  }

  lemma TailIs(p: string, q: string)
    ensures (p + q)[|p|..] == q
  {
  }

  lemma HeadIs(p: string, q: string)
    ensures (p + q)[..|p + q| - |q|] == p
  {
  }

  lemma RecordsAreValid(w: World, k: Contract)
    requires IsProper(k)
    ensures ValidRecords(w, k, PassRecords(k))
  {
    var all, records := AllCases(k), PassRecords(k);
    forall i | 0 <= i < |all| ensures CaseId(w, records[i]) == all[i].id && IsPass(records[i], PhaseOf(k, i), all[i]) && IsCaseId(k, all[i].id) {
      RecordPasses(w, PhaseOf(k, i), all[i]);
      assert all[i].id in CaseIds(k);
      IdIsListed(k, all[i].id);
    }
    forall c | c in k.live ensures HasPass(w, records, "live", c) {
      var i :| 0 <= i < |k.live| && k.live[i] == c;
      assert all[i] == c && CaseId(w, records[i]) == c.id;
    }
    forall c | c in k.saved ensures HasPass(w, records, "saved", c) {
      var i :| 0 <= i < |k.saved| && k.saved[i] == c;
      assert all[|k.live| + i] == c && CaseId(w, records[|k.live| + i]) == c.id;
    }
  }

  lemma RecordPasses(w: World, phase: string, c: Case)
    requires c.id != ""
    ensures CaseId(w, PassRecord(phase, c)) == c.id && IsPass(PassRecord(phase, c), phase, c)
  {
  }

  lemma PathsAreFresh(k: Contract)
    requires IsProper(k)
    ensures forall i | 0 <= i < |ResultPaths(k)| :: ResultPaths(k)[i] != BASELINE && ResultPaths(k)[i] != END
    ensures forall i, j | 0 <= i < j < |ResultPaths(k)| :: ResultPaths(k)[i] != ResultPaths(k)[j]
  {
    forall i | 0 <= i < |ResultPaths(k)| ensures ResultPaths(k)[i] != BASELINE && ResultPaths(k)[i] != END {
      ResultNames(AllCases(k)[i]);
    }
    forall i, j | 0 <= i < j < |ResultPaths(k)| ensures ResultPaths(k)[i] != ResultPaths(k)[j] {
      PathsDiffer(k, i, j);
    }
  }

  lemma FilesOfProper(w: World, k: Contract, base: Directory, d: Directory)
    requires IsProper(k) && base.Keys == {BASELINE, END} && d == Filed(w, base, ResultPaths(k), PassRecords(k))
    ensures (forall p :: p in d <==> p == BASELINE || p == END || p in ResultPaths(k))
    ensures d[BASELINE] == base[BASELINE] && d[END] == base[END]
    ensures forall i | 0 <= i < |AllCases(k)| :: d[ResultPaths(k)[i]] == w.encode(PassRecords(k)[i])
  {
    PathsAreFresh(k);
    FilesOnTwo(w, base, ResultPaths(k), PassRecords(k), BASELINE, END);
  }

  /** Files beside two that are there. */
  lemma FilesOnTwo(w: World, base: Directory, paths: seq<string>, records: seq<Json>, x: string, y: string)
    requires base.Keys == {x, y} && |paths| == |records| && forall i | 0 <= i < |paths| :: paths[i] != x && paths[i] != y
    requires forall i, j | 0 <= i < j < |paths| :: paths[i] != paths[j]
    ensures var d := Filed(w, base, paths, records);
            && (forall p :: p in d <==> p == x || p == y || p in paths)
            && d[x] == base[x] && d[y] == base[y]
            && (forall i | 0 <= i < |paths| :: d[paths[i]] == w.encode(records[i]))
  {
    FiledHolds(w, base, paths, records);
  }

  lemma NamesOfProper(k: Contract, d: Directory)
    requires IsProper(k) && forall p :: p in d <==> p == BASELINE || p == END || p in ResultPaths(k)
    ensures MARKER !in d && MANIFEST !in d && NoTemporaries(d)
    ensures Lists(ResultPaths(k), ResultFiles(d)) && (set path | path in d && IsSnapshotFile(path)) == {BASELINE, END}
  {
    SnapshotNames();
    ConstantNames();
    var paths := ResultPaths(k);
    forall p | p in paths
      ensures IsResultFile(p) && !IsSnapshotFile(p) && !IsTemporary(p) && p != MARKER && p != MANIFEST
    {
      var i :| 0 <= i < |paths| && paths[i] == p;
      ResultNames(AllCases(k)[i]);
    }
    PathsAreFresh(k);
  }

  lemma ResultsOfProper(w: World, k: Contract, d: Directory)
    requires RoundTrips(w) && IsProper(k) && Lists(ResultPaths(k), ResultFiles(d))
    requires forall p | p in ResultPaths(k) :: p in d
    requires forall i | 0 <= i < |AllCases(k)| :: d[ResultPaths(k)[i]] == w.encode(PassRecords(k)[i])
    ensures ResultsPass(w, k, d)
  {
    RecordsAreValid(w, k);
    forall i | 0 <= i < |ResultPaths(k)| ensures ReadJson(w, d, ResultPaths(k)[i]) == Some(PassRecords(k)[i]) {
      assert ResultPaths(k)[i] in ResultPaths(k);
    }
    assert Contains(w, d, ResultPaths(k), PassRecords(k));
  }

  lemma SnapshotsOfProper(w: World, k: Contract, d: Directory, s: Json)
    requires RoundTrips(w) && k.snapshots == {BASELINE, END} && SnapshotsMatch(s, s)
    requires BASELINE in d && END in d && d[BASELINE] == w.encode(s) && d[END] == w.encode(s)
    requires (set path | path in d && IsSnapshotFile(path)) == {BASELINE, END}
    ensures ReadJson(w, d, BASELINE) == Some(s) && ReadJson(w, d, END) == Some(s) && CheckpointsHold(w, k, d, s)
  {
  }

  lemma CatalogOfProper(k: Contract, d: Directory)
    requires IsProper(k) && forall p :: p in d <==> p == BASELINE || p == END || p in ResultPaths(k)
    ensures d.Keys + {MATRIX} == k.catalog
  {
  }

  lemma EvidenceOfProper(w: World, k: Contract, d: Directory, s: Json)
    requires RoundTrips(w) && IsProper(k) && SnapshotsMatch(s, s) && HasKey(s, "composite_sha256")
    requires d == Filed(w, TwoSnapshots(w, s), ResultPaths(k), PassRecords(k)) && forall c | c in k.live :: w.report(d, c).Some?
    ensures EvidenceIsThere(w, k, d) && d.Keys + {MATRIX} == k.catalog && ReadJson(w, d, BASELINE) == Some(s)
  {
    FilesOfProper(w, k, TwoSnapshots(w, s), d);
    NamesOfProper(k, d);
    ResultsOfProper(w, k, d);
    SnapshotsOfProper(w, k, d, s);
    CatalogOfProper(k, d);
  }

  /** What finalizing asks for can be met for every proper contract: two equal snapshots and a passing record for every case
      do it, if the saved pairs of the live cases are accepted. */
  lemma ContractFinalizes(w: World, k: Contract, d: Directory, code: string, pdfs: string, runtime: string, composite: string)
    requires RoundTrips(w) && IsProper(k)
    requires d == Filed(w, TwoSnapshots(w, Snapshot(code, pdfs, runtime, composite)), ResultPaths(k), PassRecords(k))
    requires forall c | c in k.live :: w.report(d, c).Some?
    ensures CanFinalize(w, k, d, Some(Part(pdfs)))
  {
    SnapshotMatches(code, pdfs, runtime, composite);
    EvidenceOfProper(w, k, d, Snapshot(code, pdfs, runtime, composite));
  }

  const LIVE_CASE := Case("01", "live", "live-node")
  const SAVED_CASE := Case("02", "saved", "saved-node")

  function TwoCases(): Contract {
    Contract([LIVE_CASE], [SAVED_CASE], {BASELINE, END, MATRIX, ResultPath(LIVE_CASE), ResultPath(SAVED_CASE)}, {BASELINE, END})
  }

  lemma TwoCasesAreProper()
    ensures IsProper(TwoCases())
  {
    var k := TwoCases();
    assert AllCases(k) == [LIVE_CASE, SAVED_CASE];
    assert ResultPaths(k) == [ResultPath(LIVE_CASE), ResultPath(SAVED_CASE)];
  }

  /** An audit with a live and a saved case that can be finalized. */
  lemma SomeAuditFinalizes(w: World, code: string, pdfs: string, runtime: string, composite: string) returns (d: Directory)
    requires RoundTrips(w) && forall d, c :: w.report(d, c).Some?
    ensures CanFinalize(w, TwoCases(), d, Some(Part(pdfs)))
  {
    TwoCasesAreProper();
    var k := TwoCases();
    d := Filed(w, TwoSnapshots(w, Snapshot(code, pdfs, runtime, composite)), ResultPaths(k), PassRecords(k));
    ContractFinalizes(w, k, d, code, pdfs, runtime, composite);
  }
}
