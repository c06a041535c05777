/** `canonical_fact_payload` of docmirror/models/fingerprint.py: the fact fields of a result without its volatile entries. */
module FactPayload {
  import opened Options
  import opened JsonValue

  type Path = seq<string>

  /** The path of an entry of a dictionary. */
  type Entry = p: Path | |p| > 0 witness [""]

  const FACT_FIELDS: set<string> := {
    "status", "confidence", "error", "pages", "logical_tables", "document_flow", "evidence_plane", "entities", "trust",
    "provenance", "raw_text", "sections"
  }

  /** The fact fields of a dump; a missing one is null. */
  function View(dumped: map<string, Json>): map<string, Json> {
    map field | field in FACT_FIELDS :: if field in dumped then dumped[field] else Null
  }

  const PROVENANCE_PATH: Entry := ["provenance"] + ["path"]
  const PROVENANCE_FILE: Entry := ["provenance"] + ["file_path"]

  const DIAGNOSTICS: Entry := ["evidence_plane"] + ["diagnostics"]
  const STAGED_PATH: Entry := ["evidence_plane"] + (["source"] + PROVENANCE_PATH)
  const STAGED_FILE: Entry := ["evidence_plane"] + (["source"] + PROVENANCE_FILE)
  const TIMINGS: Entry := ["entities"] + (["domain_specific"] + ["step_timings"])

  /** What belongs to a run and not to the document: locations, diagnostics and timings. */
  const VOLATILE: seq<Entry> := [PROVENANCE_FILE, DIAGNOSTICS, STAGED_PATH, STAGED_FILE, TIMINGS]

  // ----- Removing an entry -----

  /** j without the entry at the path, if the path leads through dictionaries. */
  function Pop(j: Json, path: Entry): Json
  {
    if !j.Dict? || path[0] !in j.fields then j
    else if |path| == 1 then Dict(j.fields - {path[0]})
    else Dict(j.fields[path[0] := Pop(j.fields[path[0]], path[1..])])
  }

  function PopAll(j: Json, paths: seq<Entry>): Json
  {
    if |paths| == 0 then j else Pop(PopAll(j, paths[..|paths| - 1]), paths[|paths| - 1])
  }

  /** The value a path of keys leads to. */
  function At(j: Json, p: Path): Option<Json> {
    if |p| == 0 then Some(j)
    else if j.Dict? && p[0] in j.fields then At(j.fields[p[0]], p[1..])
    else None
  }

  /** What can be seen at a path: of a dictionary only that it is one. */
  function Seen(j: Json, p: Path): Option<Json> {
    var v := At(j, p);
    if v.Some? && v.value.Dict? then Some(Dict(map[])) else v
  }

  predicate IsUnder(p: Path, path: Path) {
    path <= p
  }

  /** Removing an entry hides what is under it and nothing else. */
  lemma {:induction false} PopSeen(j: Json, path: Entry, p: Path)
    ensures Seen(Pop(j, path), p) == if IsUnder(p, path) then None else Seen(j, p)
    decreases |path|
  {
    if |p| > 0 && j.Dict? && path[0] in j.fields && p[0] == path[0] && |path| > 1 {
      PopSeen(j.fields[p[0]], path[1..], p[1..]);
      UnderNext(p, path);
    } else if |p| > 0 && p[0] == path[0] {
      UnderNext(p, path);
      if !(j.Dict? && path[0] in j.fields) {
        assert At(j, p) == None;
      }
    }
  }

  lemma UnderNext(p: Path, path: Path)
    requires |p| > 0 && |path| > 0
    ensures IsUnder(p, path) <==> p[0] == path[0] && IsUnder(p[1..], path[1..])
  {
    if p[0] == path[0] && IsUnder(p[1..], path[1..]) {
      forall i | 0 <= i < |path| ensures p[i] == path[i] {
        if i > 0 {
          assert p[1..][i - 1] == path[1..][i - 1];
        }
      }
    }
    if IsUnder(p, path) {
      assert forall i | 0 <= i < |path| - 1 :: path[1..][i] == path[i + 1] == p[i + 1] == p[1..][i];
    }
  }

  lemma {:induction false} PopAllSeen(j: Json, paths: seq<Entry>, p: Path)
    ensures Seen(PopAll(j, paths), p) == if exists i | 0 <= i < |paths| :: IsUnder(p, paths[i]) then None else Seen(j, p)
  {
    if |paths| > 0 {
      var front, last := paths[..|paths| - 1], paths[|paths| - 1];
      PopAllSeen(j, front, p);
      PopSeen(PopAll(j, front), last, p);
      if i :| 0 <= i < |front| && IsUnder(p, front[i]) {
        assert IsUnder(p, paths[i]);
      }
      if i :| 0 <= i < |paths| && IsUnder(p, paths[i]) {
        assert i == |front| || IsUnder(p, front[i]);
      }
    }
  }

  // ----- Seeing everything -----

  ghost predicate LooksLike(a: Json, b: Json) {
    forall p :: Seen(a, p) == Seen(b, p)
  }

  lemma SeenBelow(j: Json, k: string, p: Path)
    ensures j.Dict? && k in j.fields ==> Seen(j, [k] + p) == Seen(j.fields[k], p)
    ensures !(j.Dict? && k in j.fields) ==> Seen(j, [k] + p) == None
  {
    assert ([k] + p)[1..] == p;
  }

  /** Values that look alike at every path are equal. */
  lemma {:induction false} SeenIsAll(a: Json, b: Json)
    requires LooksLike(a, b)
    ensures a == b
    decreases a
  {
    assert Seen(a, []) == Seen(b, []);
    if a.Dict? {
      forall k ensures k in a.fields <==> k in b.fields {
        SeenBelow(a, k, []);
        SeenBelow(b, k, []);
      }
      forall k | k in a.fields ensures a.fields[k] == b.fields[k] {
        forall p ensures Seen(a.fields[k], p) == Seen(b.fields[k], p) {
          SeenBelow(a, k, p);
          SeenBelow(b, k, p);
        }
        SeenIsAll(a.fields[k], b.fields[k]);
      }
      assert a.fields == b.fields;
    }
  }

  // ----- The payload -----

  function Payload(dumped: map<string, Json>): Json {
    PopAll(Dict(View(dumped)), VOLATILE)
  }

  ghost predicate IsVolatile(p: Path) {
    exists i | 0 <= i < |VOLATILE| :: IsUnder(p, VOLATILE[i])
  }

  ghost predicate SameFacts(a: map<string, Json>, b: map<string, Json>) {
    forall p | !IsVolatile(p) :: Seen(Dict(View(a)), p) == Seen(Dict(View(b)), p)
  }

  /** Two results have the same payload exactly when their fact fields agree everywhere but under the volatile entries. */
  lemma SamePayloadIff(a: map<string, Json>, b: map<string, Json>)
    ensures Payload(a) == Payload(b) <==> SameFacts(a, b)
  {
    forall p
      ensures Seen(Payload(a), p) == if IsVolatile(p) then None else Seen(Dict(View(a)), p)
      ensures Seen(Payload(b), p) == if IsVolatile(p) then None else Seen(Dict(View(b)), p)
    {
      PopAllSeen(Dict(View(a)), VOLATILE, p);
      PopAllSeen(Dict(View(b)), VOLATILE, p);
    }
    if SameFacts(a, b) {
      SeenIsAll(Payload(a), Payload(b));
    }
    if Payload(a) == Payload(b) {
      forall p | !IsVolatile(p) ensures Seen(Dict(View(a)), p) == Seen(Dict(View(b)), p) {
        assert Seen(Payload(a), p) == Seen(Payload(b), p);
      }
    }
  }

  /** Under one of the five entries, written out. */
  ghost predicate BelongsToRun(p: Path) {
    || ["provenance", "file_path"] <= p || ["evidence_plane", "diagnostics"] <= p
    || ["evidence_plane", "source", "provenance", "path"] <= p || ["evidence_plane", "source", "provenance", "file_path"] <= p
    || ["entities", "domain_specific", "step_timings"] <= p
  }

  ghost predicate IsFactField(field: string) {
    field in ["status", "confidence", "error", "pages", "logical_tables", "document_flow", "evidence_plane", "entities", "trust",
              "provenance", "raw_text", "sections"]
  }

  lemma EntriesAre()
    ensures PROVENANCE_FILE == ["provenance", "file_path"] && DIAGNOSTICS == ["evidence_plane", "diagnostics"]
    ensures STAGED_PATH == ["evidence_plane", "source", "provenance", "path"]
    ensures STAGED_FILE == ["evidence_plane", "source", "provenance", "file_path"]
    ensures TIMINGS == ["entities", "domain_specific", "step_timings"]
  {
  }

  lemma VolatileIff(p: Path)
    ensures IsVolatile(p) <==> BelongsToRun(p)
  {
    EntriesAre();
    assert VOLATILE[0] == PROVENANCE_FILE && VOLATILE[1] == DIAGNOSTICS && VOLATILE[2] == STAGED_PATH;
    assert VOLATILE[3] == STAGED_FILE && VOLATILE[4] == TIMINGS;
    if IsVolatile(p) {
      var i :| 0 <= i < |VOLATILE| && IsUnder(p, VOLATILE[i]);
      assert i == 0 || i == 1 || i == 2 || i == 3 || i == 4;
    }
  }

  /** What can be seen of a dump in its payload: the twelve fact fields, null where the dump has none, and of them all that is
      not under one of the five entries. */
  lemma PayloadShows(dumped: map<string, Json>, field: string, p: Path)
    ensures Seen(Payload(dumped), [field] + p)
            == if !IsFactField(field) || BelongsToRun([field] + p) then None
               else Seen(if field in dumped then dumped[field] else Null, p)
  {
    PopAllSeen(Dict(View(dumped)), VOLATILE, [field] + p);
    VolatileIff([field] + p);
    SeenBelow(Dict(View(dumped)), field, p);
  }

  // ----- The copies and removals of the source -----

  /** A copy of a dictionary without a key; other values stay as they are. */
  function Without(j: Json, key: string): Json {
    if j.Dict? then Dict(j.fields - {key}) else j
  }

  lemma PopHere(j: Json, key: string)
    ensures Pop(j, [key]) == Without(j, key)
  {
    if j.Dict? && key !in j.fields {
      assert j.fields - {key} == j.fields;
    }
  }

  /** Removing below a key is replacing the value under it. */
  lemma PopBelow(j: Json, key: string, path: Path)
    requires |path| > 0
    ensures j.Dict? && key in j.fields ==> Pop(j, [key] + path) == Dict(j.fields[key := Pop(j.fields[key], path)])
    ensures !(j.Dict? && key in j.fields) ==> Pop(j, [key] + path) == j
  {
    assert ([key] + path)[1..] == path;
  }

  /** Two removals below the same key. */
  lemma PopTwiceBelow(fields: map<string, Json>, key: string, p: Path, q: Path)
    requires |p| > 0 && |q| > 0
    ensures Pop(Pop(Dict(fields), [key] + p), [key] + q)
            == if key in fields then Dict(fields[key := Pop(Pop(fields[key], p), q)]) else Dict(fields)
  {
    PopBelow(Dict(fields), key, p);
    if key in fields {
      PopBelow(Dict(fields[key := Pop(fields[key], p)]), key, q);
      assert fields[key := Pop(fields[key], p)][key := Pop(Pop(fields[key], p), q)] == fields[key := Pop(Pop(fields[key], p), q)];
    } else {
      PopBelow(Dict(fields), key, q);
    }
  }

  /** Nothing is removed from a value that is no dictionary, so putting it back changes nothing. */
  lemma PutBack(fields: map<string, Json>, key: string)
    requires key in fields
    ensures fields[key := fields[key]] == fields
  {
  }

  method WithoutProvenancePaths(source: map<string, Json>) returns (r: map<string, Json>)
    ensures Dict(r) == Pop(Pop(Dict(source), PROVENANCE_PATH), PROVENANCE_FILE)
  {
    r := source;
    PopTwiceBelow(source, "provenance", ["path"], ["file_path"]);
    if "provenance" in source {
      PutBack(source, "provenance");
      PopHere(source["provenance"], "path");
      PopHere(Without(source["provenance"], "path"), "file_path");
      if source["provenance"].Dict? {
        var provenance := source["provenance"].fields;
        provenance := provenance - {"path"};
        provenance := provenance - {"file_path"};
        r := source["provenance" := Dict(provenance)];
      }
    }
  }

  method CleanEvidencePlane(plane: map<string, Json>) returns (r: map<string, Json>)
    ensures Dict(r) == Pop(Pop(Pop(Dict(plane), ["diagnostics"]), ["source"] + PROVENANCE_PATH), ["source"] + PROVENANCE_FILE)
  {
    PopHere(Dict(plane), "diagnostics");
    r := plane - {"diagnostics"};
    PopTwiceBelow(r, "source", PROVENANCE_PATH, PROVENANCE_FILE);
    if "source" in r {
      PutBack(r, "source");
      if r["source"].Dict? {
        var source := WithoutProvenancePaths(r["source"].fields);
        r := r["source" := Dict(source)];
      }
    }
  }

  method CleanEntities(entities: map<string, Json>) returns (r: map<string, Json>)
    ensures Dict(r) == Pop(Dict(entities), ["domain_specific"] + ["step_timings"])
  {
    r := entities;
    PopBelow(Dict(entities), "domain_specific", ["step_timings"]);
    if "domain_specific" in entities {
      PutBack(entities, "domain_specific");
      PopHere(entities["domain_specific"], "step_timings");
      if entities["domain_specific"].Dict? {
        r := entities["domain_specific" := Dict(entities["domain_specific"].fields - {"step_timings"})];
      }
    }
  }

  /** The five removals, field by field. */
  function Cleaned(v: map<string, Json>): map<string, Json>
    requires "provenance" in v && "evidence_plane" in v && "entities" in v
  {
    var p := v["provenance" := Pop(v["provenance"], ["file_path"])];
    var e := p["evidence_plane" :=
               Pop(Pop(Pop(p["evidence_plane"], ["diagnostics"]), ["source"] + PROVENANCE_PATH), ["source"] + PROVENANCE_FILE)];
    e["entities" := Pop(e["entities"], ["domain_specific"] + ["step_timings"])]
  }

  lemma CleanedIsPopped(v: map<string, Json>)
    requires "provenance" in v && "evidence_plane" in v && "entities" in v
    ensures Dict(Cleaned(v)) == Pop(Pop(Pop(Pop(Pop(Dict(v), PROVENANCE_FILE), DIAGNOSTICS), STAGED_PATH), STAGED_FILE), TIMINGS)
  {
    PopBelow(Dict(v), "provenance", ["file_path"]);
    var p := v["provenance" := Pop(v["provenance"], ["file_path"])];
    var q := p["evidence_plane" := Pop(p["evidence_plane"], ["diagnostics"])];
    PopBelow(Dict(p), "evidence_plane", ["diagnostics"]);
    PopTwiceBelow(q, "evidence_plane", ["source"] + PROVENANCE_PATH, ["source"] + PROVENANCE_FILE);
    var e := q["evidence_plane" := Pop(Pop(q["evidence_plane"], ["source"] + PROVENANCE_PATH), ["source"] + PROVENANCE_FILE)];
    assert e == p["evidence_plane" := e["evidence_plane"]];
    PopBelow(Dict(e), "entities", ["domain_specific"] + ["step_timings"]);
  }

  lemma ThreeOf<T>(a: T, b: T, c: T)
    ensures [] + [a] == [a] && [a] + [b] == [a, b] && [a, b] + [c] == [a, b, c]
  {
  }

  lemma FiveOf<T>(a: T, b: T, c: T, d: T, e: T)
    ensures [a, b, c] + [d] + [e] == [a, b, c, d, e]
  {
  }

  lemma PopAllThree(j: Json, a: Entry, b: Entry, c: Entry)
    ensures PopAll(j, [a, b, c]) == Pop(Pop(Pop(j, a), b), c)
  {
    PopAllNext(j, [], a);
    PopAllNext(j, [a], b);
    PopAllNext(j, [a, b], c);
    ThreeOf(a, b, c);
  }

  lemma PopAllFive(j: Json, a: Entry, b: Entry, c: Entry, d: Entry, e: Entry)
    ensures PopAll(j, [a, b, c, d, e]) == Pop(Pop(Pop(Pop(Pop(j, a), b), c), d), e)
  {
    PopAllThree(j, a, b, c);
    PopTwoMore(j, [a, b, c], d, e);
    FiveOf(a, b, c, d, e);
  }

  lemma PopTwoMore(j: Json, paths: seq<Entry>, d: Entry, e: Entry)
    ensures PopAll(j, paths + [d] + [e]) == Pop(Pop(PopAll(j, paths), d), e)
  {
    PopAllNext(j, paths, d);
    PopAllNext(j, paths + [d], e);
  }

  lemma PopAllNext(j: Json, paths: seq<Entry>, last: Entry)
    ensures PopAll(j, paths + [last]) == Pop(PopAll(j, paths), last)
  {
    assert (paths + [last])[..|paths|] == paths;
  }

  lemma CleanedIsPayload(dumped: map<string, Json>)
    ensures Dict(Cleaned(View(dumped))) == Payload(dumped)
  {
    CleanedIsPopped(View(dumped));
    PopAllFive(Dict(View(dumped)), PROVENANCE_FILE, DIAGNOSTICS, STAGED_PATH, STAGED_FILE, TIMINGS);
  }

  lemma NothingToPop(j: Json, path: Path)
    requires |path| > 0 && !j.Dict?
    ensures Pop(j, path) == j
  {
  }

  /** `canonical_fact_payload`. */
  method CanonicalFactPayload(dumped: map<string, Json>) returns (payload: map<string, Json>)
    ensures Dict(payload) == Payload(dumped)
  {
    payload := View(dumped);
    CleanedIsPayload(dumped);
    payload := CleanFields(payload);
  }

  method CleanFields(fields: map<string, Json>) returns (payload: map<string, Json>)
    requires "provenance" in fields && "evidence_plane" in fields && "entities" in fields
    ensures payload == Cleaned(fields)
  {
    payload := fields;
    PopHere(payload["provenance"], "file_path");
    if payload["provenance"].Dict? {
      payload := payload["provenance" := Dict(payload["provenance"].fields - {"file_path"})];
    } else {
      PutBack(payload, "provenance");
    }
    if payload["evidence_plane"].Dict? {
      var plane := CleanEvidencePlane(payload["evidence_plane"].fields);
      payload := payload["evidence_plane" := Dict(plane)];
    } else {
      PutBack(payload, "evidence_plane");
      NothingToPop(payload["evidence_plane"], ["diagnostics"]);
      NothingToPop(payload["evidence_plane"], ["source"] + PROVENANCE_PATH);
      NothingToPop(payload["evidence_plane"], ["source"] + PROVENANCE_FILE);
    }
    if payload["entities"].Dict? {
      var entities := CleanEntities(payload["entities"].fields);
      payload := payload["entities" := Dict(entities)];
    } else {
      PutBack(payload, "entities");
      NothingToPop(payload["entities"], ["domain_specific"] + ["step_timings"]);
    }
  }
}
