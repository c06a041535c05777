/** The whole of `exclusive_assign_tokens_to_grid` of docmirror/ocr/grid_materialize.py: deduplication, assignment, and the
    coalescing of every bucket. */
module GridMaterialize {
  import opened GridAssign
  import opened OcrTokens
  import opened Options
  import opened Sequences
  import opened TokenCoalescing

  /** The tokens of a cell after deduplication and before coalescing. */
  function CellBucket(tokens: seq<OcrToken>, rows: seq<Band>, cols: seq<Band>, minOverlap: real, iou: real, key: GridKey): seq<OcrToken> {
    Bucket(Dedupe(tokens, iou), rows, cols, minOverlap, key)
  }

  /** The result has the coalesced tokens of every cell that has any. */
  ghost predicate IsGrid(grid: map<GridKey, seq<OcrToken>>, tokens: seq<OcrToken>, rows: seq<Band>, cols: seq<Band>,
                         minOverlap: real, iou: real) {
    && (forall key :: key in grid <==> key in Keys(rows, cols) && CellBucket(tokens, rows, cols, minOverlap, iou, key) != [])
    && forall key | key in grid :: grid[key] == Coalesce(CellBucket(tokens, rows, cols, minOverlap, iou, key), iou)
  }

  /** `exclusive_assign_tokens_to_grid`. */
  method ExclusiveAssignTokensToGrid(tokens: seq<OcrToken>, rows: seq<Band>, cols: seq<Band>, minOverlap: real, iou: real)
    returns (grid: map<GridKey, seq<OcrToken>>)
    ensures IsGrid(grid, tokens, rows, cols, minOverlap, iou)
  {
    var list := DedupeVisualTokens(tokens, iou);
    var assignments := AssignTokens(list, rows, cols, minOverlap);
    grid := CoalesceBuckets(assignments, iou);
  }

  /** The dictionary comprehension over the buckets that hold a token. */
  method CoalesceBuckets(buckets: map<GridKey, seq<OcrToken>>, iou: real) returns (grid: map<GridKey, seq<OcrToken>>)
    ensures forall key :: key in grid <==> key in buckets && buckets[key] != []
    ensures forall key | key in grid :: grid[key] == Coalesce(buckets[key], iou)
  {
    grid := map[];
    var todo := buckets.Keys;
    while todo != {}
      invariant todo <= buckets.Keys
      invariant forall key :: key in grid <==> key in buckets && key !in todo && buckets[key] != []
      invariant forall key | key in grid :: grid[key] == Coalesce(buckets[key], iou)
      decreases todo
    {
      var key :| key in todo;
      if buckets[key] != [] {
        var bucket := CoalesceTokensPreferNative(buckets[key], iou);
        grid := grid[key := bucket];
      }
      todo := todo - {key};
    }
  }

  lemma InBucket(tokens: seq<OcrToken>, rows: seq<Band>, cols: seq<Band>, minOverlap: real, key: GridKey, t: OcrToken)
    ensures t in Bucket(tokens, rows, cols, minOverlap, key) <==> t in tokens && Choice(t, rows, cols, minOverlap) == Some(key)
  {
    BucketTimes(tokens, rows, cols, minOverlap, key, t);
    TimesIn(Bucket(tokens, rows, cols, minOverlap, key), t);
    TimesIn(tokens, t);
  }

  lemma InDedupe(tokens: seq<OcrToken>, iou: real, t: OcrToken)
    requires t in Dedupe(tokens, iou)
    ensures t in tokens
  {
    DedupeKeepsOneEach(tokens, iou);
    TimesIn(Dedupe(tokens, iou), t);
    TimesIn(tokens, t);
  }

  /** Exclusive from end to end: a token in a cell of the result was given, chose that cell, and is in no other cell. */
  lemma GridIsExclusive(grid: map<GridKey, seq<OcrToken>>, tokens: seq<OcrToken>, rows: seq<Band>, cols: seq<Band>,
                        minOverlap: real, iou: real, key: GridKey, t: OcrToken)
    requires IsGrid(grid, tokens, rows, cols, minOverlap, iou) && key in grid && t in grid[key]
    ensures t in tokens && t.text != "" && Choice(t, rows, cols, minOverlap) == Some(key)
    ensures forall other | other in grid && other != key :: t !in grid[other]
  {
    CellHolds(grid, tokens, rows, cols, minOverlap, iou, key, t);
    InDedupe(tokens, iou, t);
    forall other | other in grid && other != key ensures t !in grid[other] {
      if t in grid[other] {
        CellHolds(grid, tokens, rows, cols, minOverlap, iou, other, t);
        assert false;
      }
    }
  }

  lemma CellHolds(grid: map<GridKey, seq<OcrToken>>, tokens: seq<OcrToken>, rows: seq<Band>, cols: seq<Band>,
                  minOverlap: real, iou: real, key: GridKey, t: OcrToken)
    requires IsGrid(grid, tokens, rows, cols, minOverlap, iou) && key in grid && t in grid[key]
    ensures t in Dedupe(tokens, iou) && t.text != "" && Choice(t, rows, cols, minOverlap) == Some(key)
  {
    CoalescedTokens(CellBucket(tokens, rows, cols, minOverlap, iou, key), iou);
    InBucket(Dedupe(tokens, iou), rows, cols, minOverlap, key, t);
  }

  /** g answers for u in a bucket: it is the best of u's group there, and if it has text the result has one that stands for it. */
  ghost predicate AnswersFor(g: OcrToken, u: OcrToken, bucket: seq<OcrToken>, result: seq<OcrToken>, iou: real) {
    && GroupKey(g) == GroupKey(u) && IsBest(WithoutFragments(bucket, NativeIds(bucket)), g)
    && (g.text != "" ==> exists k :: k in result && StandsFor(k, g, iou))
  }

  /** Nothing is lost without a reason: for a token with text there is a token that stands for it, and if that one has a cell,
      the best of its group there is answered for in the cell. */
  lemma GridCovers(grid: map<GridKey, seq<OcrToken>>, tokens: seq<OcrToken>, rows: seq<Band>, cols: seq<Band>,
                   minOverlap: real, iou: real, t: OcrToken) returns (u: OcrToken)
    requires IsGrid(grid, tokens, rows, cols, minOverlap, iou) && t in tokens && t.text != ""
    ensures u in tokens && StandsFor(u, t, iou)
    ensures var choice := Choice(u, rows, cols, minOverlap);
            choice.Some? ==>
              (choice.value in grid
               && exists g :: AnswersFor(g, u, CellBucket(tokens, rows, cols, minOverlap, iou, choice.value), grid[choice.value], iou))
  {
    DedupeKeepsOneEach(tokens, iou);
    u :| u in Dedupe(tokens, iou) && StandsFor(u, t, iou);
    InDedupe(tokens, iou, u);
    var choice := Choice(u, rows, cols, minOverlap);
    if choice.Some? {
      var key := choice.value;
      var bucket := CellBucket(tokens, rows, cols, minOverlap, iou, key);
      ChoiceIsKey(u, rows, cols, minOverlap);
      InBucket(Dedupe(tokens, iou), rows, cols, minOverlap, key, u);
      var g := CoalescedCovers(bucket, iou, u);
      assert AnswersFor(g, u, bucket, grid[key], iou);
    }
  }
}
