/** `canonical_fact_diff` of docmirror/models/fingerprint.py over JSON values. */
module FactDiff {
  import opened Options
  import opened Decimals
  import opened JsonValue

  datatype Segment = Key(key: string) | Index(index: nat)

  type Path = seq<Segment>

  /** Python's `type(left) is type(right)`. */
  predicate SameType(a: Json, b: Json) {
    match a
    case Null => b.Null?
    case Bool(_) => b.Bool?
    case Int(_) => b.Int?
    case Float(_) => b.Float?
    case Str(_) => b.Str?
    case List(_) => b.List?
    case Dict(_) => b.Dict?
  }

  /** What the comparison reports at a path below the two values, if anything. An absent key is reported as None. */
  function ChangeAt(left: Json, right: Json, p: Path): Option<(Json, Json)>
    decreases left
  {
    if !SameType(left, right) then if p == [] then Some((left, right)) else None
    else match left
      case Dict(fields) =>
        if p == [] || !p[0].Key? then None
        else
          var k := p[0].key;
          if k in fields && k in right.fields then ChangeAt(fields[k], right.fields[k], p[1..])
          else if |p| > 1 then None
          else if k in fields then Some((fields[k], Null))
          else if k in right.fields then Some((Null, right.fields[k]))
          else None
      case List(items) =>
        if |items| != |right.items| then if p == [] then Some((left, right)) else None
        else if p == [] || !p[0].Index? || p[0].index >= |items| then None
        else ChangeAt(items[p[0].index], right.items[p[0].index], p[1..])
      case _ => if p == [] && left != right then Some((left, right)) else None
  }

  // ----- Paths as strings -----

  function Child(path: string, s: Segment): string {
    match s
    case Key(k) => if |path| > 0 then path + "." + k else k
    case Index(i) => path + "[" + Decimal(i) + "]"
  }

  /** The path notation of the audit records, for example `pages[0].tables[1].headers`. */
  function Render(from: string, p: Path): string {
    if |p| == 0 then from else Child(Render(from, p[..|p| - 1]), p[|p| - 1])
  }

  lemma {:induction false} RenderFrom(from: string, s: Segment, p: Path)
    ensures Render(from, [s] + p) == Render(Child(from, s), p)
  {
    if |p| > 0 {
      RenderFrom(from, s, p[..|p| - 1]);
      assert ([s] + p)[..|p|] == [s] + p[..|p| - 1];
    } else {
      assert ([s] + p)[..0] == [] && [s] + p == [s];
      assert [s][..0] == [];
    }
  }

  /** How a path looks: keys are joined by dots and indices, as decimal numerals from zero on, stand in brackets. */
  lemma PathText(i: nat, j: nat)
    ensures exists m, n :: && IsNumeral(m, i, 1) && IsNumeral(n, j, 1)
                           && Render("", [Key("pages"), Index(i), Key("tables"), Index(j), Key("headers")])
                              == "pages" + "[" + m + "]" + "." + "tables" + "[" + n + "]" + "." + "headers"
  {
    PaddedIsNumeral(i, 1);
    PaddedIsNumeral(j, 1);
    var headers := [Key("headers")] + [];
    var second := [Index(j)] + headers;
    var tables := [Key("tables")] + second;
    var first := [Index(i)] + tables;
    RenderFrom("", Key("pages"), first);
    RenderFrom("pages", Index(i), tables);
    var table := "pages" + "[" + Decimal(i) + "]";
    RenderFrom(table, Key("tables"), second);
    RenderFrom(table + "." + "tables", Index(j), headers);
    var cell := table + "." + "tables" + "[" + Decimal(j) + "]";
    RenderFrom(cell, Key("headers"), []);
    assert [Key("pages")] + first == [Key("pages"), Index(i), Key("tables"), Index(j), Key("headers")];
    assert Render("", [Key("pages")] + first) == cell + "." + "headers";
  }

  // ----- The walk -----

  /** Some change below the values has this rendered path and these two sides. */
  ghost predicate IsReported(left: Json, right: Json, path: string, s: string, sides: (Json, Json)) {
    exists p: Path :: ReportedAt(left, right, path, s, sides, p)
  }

  ghost predicate ReportedAt(left: Json, right: Json, path: string, s: string, sides: (Json, Json), p: Path) {
    Render(path, p) == s && ChangeAt(left, right, p) == Some(sides)
  }

  /** A child's value on both sides, when both sides have it. */
  ghost predicate IsChild(left: Json, right: Json, seg: Segment, l: Json, r: Json) {
    && SameType(left, right)
    && match seg
       case Key(k) => left.Dict? && k in left.fields && k in right.fields && l == left.fields[k] && r == right.fields[k]
       case Index(i) => left.List? && |left.items| == |right.items| && i < |left.items| && l == left.items[i] && r == right.items[i]
  }

  lemma ChildChange(left: Json, right: Json, seg: Segment, l: Json, r: Json, path: string, p: Path)
    requires IsChild(left, right, seg, l, r)
    ensures ChangeAt(left, right, [seg] + p) == ChangeAt(l, r, p)
    ensures Render(path, [seg] + p) == Render(Child(path, seg), p)
  {
    assert ([seg] + p)[1..] == p;
    RenderFrom(path, seg, p);
  }

  lemma ChildReported(left: Json, right: Json, seg: Segment, l: Json, r: Json, path: string, s: string, sides: (Json, Json))
    requires IsChild(left, right, seg, l, r) && IsReported(l, r, Child(path, seg), s, sides)
    ensures IsReported(left, right, path, s, sides)
  {
    var p :| ReportedAt(l, r, Child(path, seg), s, sides, p);
    ChildChange(left, right, seg, l, r, path, p);
    assert ReportedAt(left, right, path, s, sides, [seg] + p);
  }

  /** What a walk adds to the shared dictionary: only reported changes, and an entry for every reported path. */
  ghost predicate Adds(before: map<string, (Json, Json)>, after: map<string, (Json, Json)>, left: Json, right: Json, path: string) {
    && OnlyReported(before, after, left, right, path)
    && forall p: Path | ChangeAt(left, right, p).Some? :: Render(path, p) in after
  }

  ghost predicate OnlyReported(before: map<string, (Json, Json)>, after: map<string, (Json, Json)>, left: Json, right: Json, path: string) {
    && before.Keys <= after.Keys
    && forall s | s in after :: (s in before && after[s] == before[s]) || IsReported(left, right, path, s, after[s])
  }

  /** After a child's walk. */
  lemma ChildAdds(before: map<string, (Json, Json)>, mid: map<string, (Json, Json)>, after: map<string, (Json, Json)>,
                  left: Json, right: Json, seg: Segment, l: Json, r: Json, path: string)
    requires IsChild(left, right, seg, l, r)
    requires OnlyReported(before, mid, left, right, path) && Adds(mid, after, l, r, Child(path, seg))
    ensures OnlyReported(before, after, left, right, path)
    ensures forall p: Path | |p| > 0 && p[0] == seg && ChangeAt(left, right, p).Some? :: Render(path, p) in after
  {
    forall s | s in after ensures (s in before && after[s] == before[s]) || IsReported(left, right, path, s, after[s]) {
      if !(s in mid && after[s] == mid[s]) {
        ChildReported(left, right, seg, l, r, path, s, after[s]);
      }
    }
    forall p: Path | |p| > 0 && p[0] == seg && ChangeAt(left, right, p).Some? ensures Render(path, p) in after {
      assert p == [seg] + p[1..];
      ChildChange(left, right, seg, l, r, path, p[1..]);
    }
  }

  lemma OneEntry(before: map<string, (Json, Json)>, mid: map<string, (Json, Json)>, left: Json, right: Json, path: string, p: Path)
    requires OnlyReported(before, mid, left, right, path) && ChangeAt(left, right, p).Some?
    ensures OnlyReported(before, mid[Render(path, p) := ChangeAt(left, right, p).value], left, right, path)
  {
    assert ReportedAt(left, right, path, Render(path, p), ChangeAt(left, right, p).value, p);
  }

  class FactDiffer {
    var changes: map<string, (Json, Json)>

    constructor ()
      ensures changes == map[]
    {
      changes := map[];
    }

    /** `_walk`; the keys of a dictionary are visited in no particular order. */
    method Walk(left: Json, right: Json, path: string)
      modifies this
      ensures Adds(old(changes), changes, left, right, path)
      decreases left, 1
    {
      if !SameType(left, right) {
        assert Render(path, []) == path;
        OneEntry(changes, changes, left, right, path, []);
        changes := changes[path := (left, right)];
      } else if left.Dict? {
        WalkDict(left, right, path);
      } else if left.List? {
        WalkList(left, right, path);
      } else if left != right {
        assert Render(path, []) == path;
        OneEntry(changes, changes, left, right, path, []);
        changes := changes[path := (left, right)];
      }
    }

    method WalkDict(left: Json, right: Json, path: string)
      requires left.Dict? && right.Dict?
      modifies this
      ensures Adds(old(changes), changes, left, right, path)
      decreases left, 0
    {
      var keys := left.fields.Keys + right.fields.Keys;
      var todo := keys;
      while todo != {}
        invariant todo <= keys
        invariant OnlyReported(old(changes), changes, left, right, path)
        invariant forall p: Path | ChangeAt(left, right, p).Some? && p[0].key !in todo :: Render(path, p) in changes
        decreases todo
      {
        var key :| key in todo;
        ghost var mid := changes;
        var child := Child(path, Key(key));
        assert [Key(key)][..0] == [] && Render(path, [Key(key)]) == child;
        if key !in left.fields {
          OneEntry(old(changes), changes, left, right, path, [Key(key)]);
          changes := changes[child := (Null, right.fields[key])];
          OnlyPath(left, right, key);
        } else if key !in right.fields {
          OneEntry(old(changes), changes, left, right, path, [Key(key)]);
          changes := changes[child := (left.fields[key], Null)];
          OnlyPath(left, right, key);
        } else {
          Walk(left.fields[key], right.fields[key], child);
          ChildAdds(old(changes), mid, changes, left, right, Key(key), left.fields[key], right.fields[key], path);
        }
        todo := todo - {key};
      }
    }

    method WalkList(left: Json, right: Json, path: string)
      requires left.List? && right.List?
      modifies this
      ensures Adds(old(changes), changes, left, right, path)
      decreases left, 0
    {
      if |left.items| != |right.items| {
        assert Render(path, []) == path;
        OneEntry(changes, changes, left, right, path, []);
        changes := changes[path := (left, right)];
        return;
      }
      for i := 0 to |left.items|
        invariant OnlyReported(old(changes), changes, left, right, path)
        invariant forall p: Path | ChangeAt(left, right, p).Some? && p[0].index < i :: Render(path, p) in changes
      {
        ghost var mid := changes;
        Walk(left.items[i], right.items[i], Child(path, Index(i)));
        ChildAdds(old(changes), mid, changes, left, right, Index(i), left.items[i], right.items[i], path);
      }
    }
  }

  /** A key that only one side has is reported by itself. */
  lemma OnlyPath(left: Json, right: Json, key: string)
    requires left.Dict? && right.Dict? && (key in left.fields) != (key in right.fields)
    ensures forall p: Path | ChangeAt(left, right, p).Some? && p[0] == Key(key) :: p == [Key(key)]
  {
  }

  /** `canonical_fact_diff`. */
  method CanonicalFactDiff(before: Json, after: Json) returns (changes: map<string, (Json, Json)>)
    ensures Adds(map[], changes, before, after, "")
    ensures changes == map[] <==> before == after
  {
    var differ := new FactDiffer();
    differ.Walk(before, after, "");
    changes := differ.changes;
    if before != after {
      var p := SomeChange(before, after);
      assert Render("", p) in changes;
    } else {
      NoChange(before);
      assert forall s | s in changes :: IsReported(before, after, "", s, changes[s]);
      assert changes.Keys == {};
    }
  }

  lemma {:induction false} NoChange(a: Json)
    ensures forall p :: ChangeAt(a, a, p) == None
    decreases a
  {
    forall p: Path ensures ChangeAt(a, a, p) == None {
      if |p| > 0 {
        match a
        case Dict(fields) => if p[0].Key? && p[0].key in fields { NoChange(fields[p[0].key]); }
        case List(items) => if p[0].Index? && p[0].index < |items| { NoChange(items[p[0].index]); }
        case _ =>
      }
    }
  }

  lemma DifferingKey(m: map<string, Json>, n: map<string, Json>) returns (k: string)
    requires m.Keys == n.Keys && m != n
    ensures k in m && m[k] != n[k]
  {
    k :| k in m && m[k] != n[k];
  }

  /** Different values differ somewhere. */
  lemma {:induction false} SomeChange(a: Json, b: Json) returns (p: Path)
    requires a != b
    ensures ChangeAt(a, b, p).Some?
    decreases a
  {
    p := [];
    if SameType(a, b) && a.Dict? {
      if k :| k in a.fields && k !in b.fields {
        p := [Key(k)];
      } else if k :| k in b.fields && k !in a.fields {
        p := [Key(k)];
      } else {
        assert a.fields.Keys == b.fields.Keys;
        var k := DifferingKey(a.fields, b.fields);
        var q := SomeChange(a.fields[k], b.fields[k]);
        ChildChange(a, b, Key(k), a.fields[k], b.fields[k], "", q);
        p := [Key(k)] + q;
      }
    } else if SameType(a, b) && a.List? && |a.items| == |b.items| {
      var i :| 0 <= i < |a.items| && a.items[i] != b.items[i];
      var q := SomeChange(a.items[i], b.items[i]);
      ChildChange(a, b, Index(i), a.items[i], b.items[i], "", q);
      p := [Index(i)] + q;
    }
  }

  // ----- Properties of the reported changes -----

  /** Swapping the arguments swaps every pair. */
  lemma {:induction false} SwapSides(a: Json, b: Json, p: Path)
    ensures ChangeAt(b, a, p) == if ChangeAt(a, b, p).Some? then Some((ChangeAt(a, b, p).value.1, ChangeAt(a, b, p).value.0)) else None
    decreases a
  {
    if SameType(a, b) && |p| > 0 {
      match a
      case Dict(fields) =>
        if p[0].Key? && p[0].key in fields && p[0].key in b.fields {
          SwapSides(fields[p[0].key], b.fields[p[0].key], p[1..]);
        }
      case List(items) =>
        if |items| == |b.items| && p[0].Index? && p[0].index < |items| {
          SwapSides(items[p[0].index], b.items[p[0].index], p[1..]);
        }
      case _ =>
    }
  }

  /** No reported path is below another one. */
  lemma {:induction false} PrefixFree(a: Json, b: Json, p: Path, q: Path)
    requires ChangeAt(a, b, p).Some? && ChangeAt(a, b, q).Some? && p <= q
    ensures p == q
    decreases a
  {
    if SameType(a, b) && |p| > 0 {
      assert p[1..] <= q[1..] && p[0] == q[0];
      assert p == [p[0]] + p[1..] && q == [q[0]] + q[1..];
      match a
      case Dict(fields) =>
        if p[0].key in fields && p[0].key in b.fields {
          PrefixFree(fields[p[0].key], b.fields[p[0].key], p[1..], q[1..]);
        }
      case List(items) =>
        PrefixFree(items[p[0].index], b.items[p[0].index], p[1..], q[1..]);
      case _ =>
    }
  }

  // ----- The changes as a patch -----

  /** The changes below one segment. */
  function Below(changes: map<Path, (Json, Json)>, seg: Segment): map<Path, (Json, Json)> {
    map p: Path | p in Tails(changes, seg) :: changes[[seg] + p]
  }

  function Tails(changes: map<Path, (Json, Json)>, seg: Segment): (r: set<Path>)
    ensures forall p: Path :: p in r <==> [seg] + p in changes
  {
    var r := set p: Path | p in changes && |p| > 0 && p[0] == seg :: p[1..];
    assert forall p: Path | [seg] + p in changes :: ([seg] + p)[1..] == p;
    assert forall p: Path | p in changes && |p| > 0 && p[0] == seg :: [seg] + p[1..] == p;
    r
  }

  function NewKeys(changes: map<Path, (Json, Json)>): (r: set<string>)
    ensures forall k :: k in r <==> [Key(k)] in changes
  {
    var r := set p: Path | p in changes && |p| == 1 && p[0].Key? :: p[0].key;
    assert forall p: Path | p in changes && |p| == 1 && p[0].Key? :: p == [Key(p[0].key)];
    assert forall k | [Key(k)] in changes :: [Key(k)][0].key == k;
    r
  }

  /** Writing the second side of every change into a value. */
  function Patched(a: Json, changes: map<Path, (Json, Json)>): Json
    decreases a
  {
    if [] in changes then changes[[]].1
    else match a
      case Dict(fields) =>
        Dict(map k | k in fields.Keys + NewKeys(changes) ::
               if k in fields then Patched(fields[k], Below(changes, Key(k))) else changes[[Key(k)]].1)
      case List(items) =>
        List(seq(|items|, i requires 0 <= i < |items| => Patched(items[i], Below(changes, Index(i)))))
      case _ => a
  }

  /** The value without dictionary entries that are None. */
  function WithoutNulls(a: Json): Json
    decreases a
  {
    match a
    case Dict(fields) => Dict(map k | k in fields && fields[k] != Null :: WithoutNulls(fields[k]))
    case List(items) => List(seq(|items|, i requires 0 <= i < |items| => WithoutNulls(items[i])))
    case _ => a
  }

  /** The changes, keyed by their segment paths. */
  ghost predicate IsDiff(changes: map<Path, (Json, Json)>, a: Json, b: Json) {
    forall p: Path :: (p in changes <==> ChangeAt(a, b, p).Some?) && (p in changes ==> changes[p] == ChangeAt(a, b, p).value)
  }

  /** The paths to the keys that one of two dictionaries has. */
  function OneSided(f: map<string, Json>, g: map<string, Json>): (r: set<Path>)
    ensures forall p: Path :: p in r <==> |p| == 1 && p[0].Key? && (p[0].key in f) != (p[0].key in g)
  {
    var r: set<Path> := set k | k in f.Keys + g.Keys && (k in f) != (k in g) :: [Key(k)];
    assert forall p: Path | |p| == 1 && p[0].Key? :: p == [Key(p[0].key)];
    r
  }

  /** The paths of the changes, collected by recursion. */
  function ChangedPaths(a: Json, b: Json): set<Path>
    decreases a
  {
    if !SameType(a, b) then {[]}
    else match a
      case Dict(fields) =>
        OneSided(fields, b.fields)
        + (set k, p | k in fields.Keys && k in b.fields && p in ChangedPaths(fields[k], b.fields[k]) :: [Key(k)] + p)
      case List(items) =>
        if |items| != |b.items| then {[]}
        else set i: nat, p | i < |items| && p in ChangedPaths(items[i], b.items[i]) :: [Index(i)] + p
      case _ => if a != b then {[]} else {}
  }

  lemma {:induction false} ChangedPathsExact(a: Json, b: Json, p: Path)
    ensures p in ChangedPaths(a, b) <==> ChangeAt(a, b, p).Some?
    decreases a
  {
    if SameType(a, b) && |p| > 0 {
      assert p == [p[0]] + p[1..];
      match a
      case Dict(fields) =>
        if p[0].Key? && p[0].key in fields && p[0].key in b.fields {
          ChangedPathsExact(fields[p[0].key], b.fields[p[0].key], p[1..]);
          assert p in OneSided(fields, b.fields) <==> false;
        } else {
          assert p in ChangedPaths(a, b) <==> p in OneSided(fields, b.fields);
        }
      case List(items) =>
        if p[0].Index? && p[0].index < |items| && |items| == |b.items| {
          ChangedPathsExact(items[p[0].index], b.items[p[0].index], p[1..]);
        }
      case _ =>
    }
  }

  /** The changes between any two values as a map. */
  function ChangesOf(a: Json, b: Json): (r: map<Path, (Json, Json)>)
    ensures IsDiff(r, a, b)
  {
    assert forall p :: p in ChangedPaths(a, b) <==> ChangeAt(a, b, p).Some? by {
      forall p ensures p in ChangedPaths(a, b) <==> ChangeAt(a, b, p).Some? {
        ChangedPathsExact(a, b, p);
      }
    }
    map p | p in ChangedPaths(a, b) :: ChangeAt(a, b, p).value
  }

  lemma BelowIsDiff(changes: map<Path, (Json, Json)>, a: Json, b: Json, seg: Segment, l: Json, r: Json)
    requires IsDiff(changes, a, b) && IsChild(a, b, seg, l, r)
    ensures IsDiff(Below(changes, seg), l, r)
  {
    forall p: Path
      ensures (p in Below(changes, seg) <==> ChangeAt(l, r, p).Some?)
      ensures p in Below(changes, seg) ==> Below(changes, seg)[p] == ChangeAt(l, r, p).value
    {
      ChildChange(a, b, seg, l, r, "", p);
    }
  }

  /** Applying the changes to the first value gives the second, up to keys that are absent on one side and None on the other. */
  lemma {:induction false} PatchGivesAfter(changes: map<Path, (Json, Json)>, a: Json, b: Json)
    requires IsDiff(changes, a, b)
    ensures WithoutNulls(Patched(a, changes)) == WithoutNulls(b)
    ensures b != Null ==> Patched(a, changes) != Null
    ensures b == Null ==> Patched(a, changes) == Null
    decreases a
  {
    assert [] in changes <==> ChangeAt(a, b, []).Some?;
    if SameType(a, b) && a.Dict? {
      PatchDict(changes, a, b);
    } else if SameType(a, b) && a.List? && |a.items| == |b.items| {
      var patched := Patched(a, changes);
      forall i | 0 <= i < |a.items| ensures WithoutNulls(patched.items[i]) == WithoutNulls(b.items[i]) {
        BelowIsDiff(changes, a, b, Index(i), a.items[i], b.items[i]);
        PatchGivesAfter(Below(changes, Index(i)), a.items[i], b.items[i]);
      }
      assert WithoutNulls(patched) == WithoutNulls(b);
    }
  }

  lemma {:induction false} PatchDict(changes: map<Path, (Json, Json)>, a: Json, b: Json)
    requires IsDiff(changes, a, b) && a.Dict? && b.Dict?
    ensures WithoutNulls(Patched(a, changes)) == WithoutNulls(b) && Patched(a, changes) != Null
    decreases a, 1
  {
    var patched := Patched(a, changes);
    forall k: string
      ensures k in patched.fields && patched.fields[k] != Null <==> k in b.fields && b.fields[k] != Null
      ensures k in patched.fields && patched.fields[k] != Null ==> WithoutNulls(patched.fields[k]) == WithoutNulls(b.fields[k])
    {
      PatchKey(changes, a, b, k);
    }
    SameWithoutNulls(patched, b);
  }

  lemma SameWithoutNulls(a: Json, b: Json)
    requires a.Dict? && b.Dict?
    requires forall k: string :: k in a.fields && a.fields[k] != Null <==> k in b.fields && b.fields[k] != Null
    requires forall k: string | k in a.fields && a.fields[k] != Null :: WithoutNulls(a.fields[k]) == WithoutNulls(b.fields[k])
    ensures WithoutNulls(a) == WithoutNulls(b)
  {
    assert WithoutNulls(a).fields == WithoutNulls(b).fields;
  }

  lemma {:induction false} PatchKey(changes: map<Path, (Json, Json)>, a: Json, b: Json, k: string)
    requires IsDiff(changes, a, b) && a.Dict? && b.Dict?
    ensures var patched := Patched(a, changes);
            && patched.Dict?
            && (k in patched.fields && patched.fields[k] != Null <==> k in b.fields && b.fields[k] != Null)
            && (k in patched.fields && patched.fields[k] != Null ==> WithoutNulls(patched.fields[k]) == WithoutNulls(b.fields[k]))
    decreases a, 0
  {
    assert [] !in changes;
    var p := [Key(k)];
    if k in a.fields && k in b.fields {
      BelowIsDiff(changes, a, b, Key(k), a.fields[k], b.fields[k]);
      PatchGivesAfter(Below(changes, Key(k)), a.fields[k], b.fields[k]);
    } else if k in a.fields {
      assert p in changes && changes[p] == (a.fields[k], Null);
      assert p + [] == p;
      assert [] in Below(changes, Key(k));
      assert Patched(a.fields[k], Below(changes, Key(k))) == Null;
    } else {
      assert p in changes <==> k in b.fields;
    }
  }

  // ----- Distinct paths have distinct strings -----

  ghost predicate IsSeparator(c: char) {
    c == '.' || c == '['
  }

  ghost predicate NoSeparator(s: string) {
    forall i | 0 <= i < |s| :: !IsSeparator(s[i])
  }

  ghost predicate CleanKey(k: string) {
    |k| > 0 && NoSeparator(k)
  }

  ghost predicate CleanPath(p: Path) {
    forall i | 0 <= i < |p| && p[i].Key? :: CleanKey(p[i].key)
  }

  /** All keys, at every level, are non-empty and contain neither '.' nor '['. */
  ghost predicate Clean(a: Json)
    decreases a
  {
    match a
    case Dict(fields) => forall k | k in fields :: CleanKey(k) && Clean(fields[k])
    case List(items) => forall i | 0 <= i < |items| :: Clean(items[i])
    case _ => true
  }

  lemma {:induction false} ReportedPathIsClean(a: Json, b: Json, p: Path)
    requires Clean(a) && Clean(b) && ChangeAt(a, b, p).Some?
    ensures CleanPath(p)
    decreases a
  {
    if SameType(a, b) && |p| > 0 {
      assert p == [p[0]] + p[1..];
      match a
      case Dict(fields) =>
        if p[0].key in fields && p[0].key in b.fields {
          ReportedPathIsClean(fields[p[0].key], b.fields[p[0].key], p[1..]);
        }
      case List(items) =>
        ReportedPathIsClean(items[p[0].index], b.items[p[0].index], p[1..]);
      case _ =>
    }
  }

  lemma {:induction false} DecimalClean(n: nat)
    ensures NoSeparator(Decimal(n)) && |Decimal(n)| > 0 && (n >= 10 ==> |Decimal(n)| > 1)
  {
    if n >= 10 {
      DecimalClean(n / 10);
    }
  }

  /** A string is split in one way only at its last separator. */
  lemma SplitAtLast(a: string, c: char, x: string, b: string, d: char, y: string)
    requires a + [c] + x == b + [d] + y
    requires IsSeparator(c) && IsSeparator(d) && NoSeparator(x) && NoSeparator(y)
    ensures a == b && c == d && x == y
  {
    var s := a + [c] + x;
    assert s[|a|] == c && s[|b|] == d;
    assert forall i | |a| < i < |s| :: s[i] == x[i - |a| - 1];
    assert forall i | |b| < i < |s| :: s[i] == y[i - |b| - 1];
    assert a == s[..|a|] && b == s[..|b|];
    assert x == s[|a| + 1..] && y == s[|b| + 1..];
  }

  /** The text after the last separator of a rendered child, and that separator. */
  ghost function Tail(s: Segment): (char, string) {
    match s
    case Key(k) => ('.', k)
    case Index(i) => ('[', Decimal(i) + "]")
  }

  lemma ChildShape(path: string, s: Segment)
    requires |path| > 0 || s.Index?
    ensures Child(path, s) == path + [Tail(s).0] + Tail(s).1
    ensures s.Key? && CleanKey(s.key) ==> NoSeparator(Tail(s).1)
    ensures s.Index? ==> NoSeparator(Tail(s).1)
  {
    if s.Index? {
      DecimalClean(s.index);
      assert path + "[" + Decimal(s.index) + "]" == path + ['['] + (Decimal(s.index) + "]");
    }
  }

  lemma TailInjective(s: Segment, t: Segment)
    requires Tail(s) == Tail(t)
    ensures s == t
  {
    if s.Index? {
      assert Decimal(s.index) == Tail(s).1[..|Tail(s).1| - 1] == Tail(t).1[..|Tail(t).1| - 1] == Decimal(t.index);
      DecimalInjective(s.index, t.index);
    }
  }

  lemma {:induction false} RenderedNotEmpty(p: Path)
    requires |p| > 0 && CleanPath(p)
    ensures |Render("", p)| > 0
  {
  }

  /** Only a single key is rendered without a separator. */
  lemma RenderedShape(p: Path)
    requires |p| > 0 && CleanPath(p)
    ensures var front, last := p[..|p| - 1], p[|p| - 1];
            if |p| == 1 && last.Key? then Render("", p) == last.key && NoSeparator(Render("", p))
            else
              && Render("", p) == Render("", front) + [Tail(last).0] + Tail(last).1
              && NoSeparator(Tail(last).1) && !NoSeparator(Render("", p))
  {
    var front, last := p[..|p| - 1], p[|p| - 1];
    if |p| == 1 && last.Key? {
      assert front == [];
    } else {
      if |front| > 0 {
        RenderedNotEmpty(front);
      }
      ChildShape(Render("", front), last);
      assert Render("", p)[|Render("", front)|] == Tail(last).0;
    }
  }

  lemma {:induction false} RenderInjective(p: Path, q: Path)
    requires CleanPath(p) && CleanPath(q) && Render("", p) == Render("", q)
    ensures p == q
    decreases |p|
  {
    if |p| == 0 || |q| == 0 {
      if |p| > 0 {
        RenderedNotEmpty(p);
      }
      if |q| > 0 {
        RenderedNotEmpty(q);
      }
    } else {
      var front, last, front', last' := p[..|p| - 1], p[|p| - 1], q[..|q| - 1], q[|q| - 1];
      assert p == front + [last] && q == front' + [last'];
      RenderedShape(p);
      RenderedShape(q);
      if !(|p| == 1 && last.Key?) {
        SplitAtLast(Render("", front), Tail(last).0, Tail(last).1, Render("", front'), Tail(last').0, Tail(last').1);
        TailInjective(last, last');
        assert CleanPath(front) && CleanPath(front') by {
          assert forall i | 0 <= i < |front'| :: front'[i] == q[i];
        }
        RenderInjective(front, front');
      }
    }
  }

  /** A key with a dot has the string of a longer path. */
  lemma UncleanKeysCollide()
    ensures Render("", [Key("a.b")]) == "a.b" == Render("", [Key("a"), Key("b")])
  {
    assert [Key("a"), Key("b")][1..] == [Key("b")] && [Key("b")][1..] == [] && [Key("a.b")][1..] == [];
    assert Render("", [Key("a.b")]) == "a.b";
    assert Render("", [Key("a"), Key("b")]) == Render("a", [Key("b")]) == "a" + "." + "b";
  }

  /** The dictionary `{"a.b": x, "a": {"b": y}}`. */
  function Nested(x: Json, y: Json): (r: Json)
    ensures r.Dict? && r.fields.Keys == {"a.b", "a"} && r.fields["a.b"] == x && r.fields["a"] == Dict(map["b" := y])
  {
    Dict(map["a.b" := x, "a" := Dict(map["b" := y])])
  }

  /** Where two such dictionaries over numbers can differ, and how. */
  lemma NestedChange(x: int, y: int, x': int, y': int, p: Path)
    requires x != x' && y != y'
    ensures ChangeAt(Nested(Int(x), Int(y)), Nested(Int(x'), Int(y')), p) ==
            if p == [Key("a.b")] then Some((Int(x), Int(x'))) else if p == [Key("a"), Key("b")] then Some((Int(y), Int(y'))) else None
  {
    var a, b := Nested(Int(x), Int(y)), Nested(Int(x'), Int(y'));
    if |p| > 0 {
      assert p == [p[0]] + p[1..];
      if p[0] == Key("a") {
        InnerChange(y, y', p[1..]);
        assert [Key("a"), Key("b")][1..] == [Key("b")] && [Key("a"), Key("b")] == [Key("a")] + [Key("b")];
      } else if p[0] == Key("a.b") {
        NumberChange(x, x', p[1..]);
      }
    }
  }

  lemma InnerChange(y: int, y': int, p: Path)
    requires y != y'
    ensures ChangeAt(Dict(map["b" := Int(y)]), Dict(map["b" := Int(y')]), p) == if p == [Key("b")] then Some((Int(y), Int(y'))) else None
  {
    if |p| > 0 {
      assert p == [p[0]] + p[1..];
      NumberChange(y, y', p[1..]);
    }
  }

  lemma NumberChange(x: int, x': int, p: Path)
    requires x != x'
    ensures ChangeAt(Int(x), Int(x'), p) == if p == [] then Some((Int(x), Int(x'))) else None
  {
  }

  /** Two changes under one string: for the dictionaries `{"a.b": x, "a": {"b": y}}` and `{"a.b": x', "a": {"b": y'}}` the
      returned changes hold one entry, so if the changes differ one of them is lost. */
  lemma ChangeIsLost(changes: map<string, (Json, Json)>, x: int, y: int, x': int, y': int)
    requires x != x' && y != y' && (x, x') != (y, y')
    requires Adds(map[], changes, Nested(Int(x), Int(y)), Nested(Int(x'), Int(y')), "")
    ensures var a, b, p, q := Nested(Int(x), Int(y)), Nested(Int(x'), Int(y')), [Key("a.b")], [Key("a"), Key("b")];
            && ChangeAt(a, b, p).Some? && ChangeAt(a, b, q).Some? && ChangeAt(a, b, p) != ChangeAt(a, b, q)
            && changes.Keys == {"a.b"}
            && (Some(changes["a.b"]) == ChangeAt(a, b, p) || Some(changes["a.b"]) == ChangeAt(a, b, q))
  {
    var a, b, p, q := Nested(Int(x), Int(y)), Nested(Int(x'), Int(y')), [Key("a.b")], [Key("a"), Key("b")];
    UncleanKeysCollide();
    NestedChange(x, y, x', y', p);
    NestedChange(x, y, x', y', q);
    assert Render("", p) in changes;
    forall s | s in changes ensures s == "a.b" && (Some(changes[s]) == ChangeAt(a, b, p) || Some(changes[s]) == ChangeAt(a, b, q)) {
      var r :| ReportedAt(a, b, "", s, changes[s], r);
      NestedChange(x, y, x', y', r);
    }
  }

  /** With clean keys the returned dictionary is exactly the reported changes under their strings. */
  lemma ReportedExactly(changes: map<string, (Json, Json)>, a: Json, b: Json, p: Path)
    requires Clean(a) && Clean(b) && CleanPath(p) && Adds(map[], changes, a, b, "")
    ensures Render("", p) in changes <==> ChangeAt(a, b, p).Some?
    ensures ChangeAt(a, b, p).Some? ==> changes[Render("", p)] == ChangeAt(a, b, p).value
  {
    var s := Render("", p);
    if s in changes {
      var q :| ReportedAt(a, b, "", s, changes[s], q);
      ReportedPathIsClean(a, b, q);
      RenderInjective(p, q);
    }
  }

  /** The dictionary read back: clean paths whose strings are its keys. */
  ghost predicate ReadsBack(paths: map<Path, (Json, Json)>, changes: map<string, (Json, Json)>) {
    && (forall p | p in paths :: CleanPath(p) && Render("", p) in changes && changes[Render("", p)] == paths[p])
    && forall s | s in changes :: exists p :: p in paths && Render("", p) == s
  }

  /** With clean keys the returned dictionary can be read back. */
  lemma ReturnedReadsBack(changes: map<string, (Json, Json)>, a: Json, b: Json)
    requires Clean(a) && Clean(b) && Adds(map[], changes, a, b, "")
    ensures ReadsBack(ChangesOf(a, b), changes)
  {
    var paths := ChangesOf(a, b);
    forall p | p in paths ensures CleanPath(p) && Render("", p) in changes && changes[Render("", p)] == paths[p] {
      ReportedPathIsClean(a, b, p);
      ReportedExactly(changes, a, b, p);
    }
    forall s | s in changes ensures exists p :: p in paths && Render("", p) == s {
      var p :| ReportedAt(a, b, "", s, changes[s], p);
      assert p in paths;
    }
  }

  lemma ReadBackAt(paths: map<Path, (Json, Json)>, changes: map<string, (Json, Json)>, a: Json, b: Json, p: Path)
    requires Clean(a) && Clean(b) && Adds(map[], changes, a, b, "") && ReadsBack(paths, changes)
    ensures (p in paths <==> ChangeAt(a, b, p).Some?) && (p in paths ==> paths[p] == ChangeAt(a, b, p).value)
  {
    if p in paths {
      ReportedExactly(changes, a, b, p);
    } else if ChangeAt(a, b, p).Some? {
      ReportedPathIsClean(a, b, p);
      ReportedExactly(changes, a, b, p);
      var q :| q in paths && Render("", q) == Render("", p);
      RenderInjective(p, q);
    }
  }

  lemma DiffIsUnique(m: map<Path, (Json, Json)>, n: map<Path, (Json, Json)>, a: Json, b: Json)
    requires IsDiff(m, a, b) && IsDiff(n, a, b)
    ensures m == n
  {
    assert forall p :: p in m <==> p in n;
  }

  /** And however it is read back, as a patch it turns the first value into the second, up to absent and null keys. */
  lemma PatchReturned(paths: map<Path, (Json, Json)>, changes: map<string, (Json, Json)>, a: Json, b: Json)
    requires Clean(a) && Clean(b) && Adds(map[], changes, a, b, "") && ReadsBack(paths, changes)
    ensures paths == ChangesOf(a, b) && WithoutNulls(Patched(a, paths)) == WithoutNulls(b)
  {
    assert IsDiff(paths, a, b) by {
      forall p: Path ensures (p in paths <==> ChangeAt(a, b, p).Some?) && (p in paths ==> paths[p] == ChangeAt(a, b, p).value) {
        ReadBackAt(paths, changes, a, b, p);
      }
    }
    DiffIsUnique(paths, ChangesOf(a, b), a, b);
    PatchGivesAfter(paths, a, b);
  }
}
