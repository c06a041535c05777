/** The fused watermark and duplicate pass of docmirror/layout/watermark.py against its two separate passes. */
module Watermark {
  import opened Options
  import opened Reals

  /** The non-stroking colour, when it is a list or a tuple. */
  datatype Color = NoList | Components(values: seq<real>)

  /** A character object; `skew` holds the second and third entry of its matrix, when it has one. */
  datatype Glyph = Glyph(upright: bool, skew: Option<(real, real)>, color: Color, x0: real, top: real, text: string)

  /** The objects of a page in their order. */
  datatype Object = Char(glyph: Glyph) | Other(id: nat)

  type Bucket = (int, int, string)

  function BucketOf(g: Glyph): Bucket {
    (Truncate(g.x0 / 3.0), Truncate(g.top / 3.0), g.text)
  }

  /** `is_watermark_char`; an empty list of colour components counts as light. */
  predicate IsWatermark(g: Glyph) {
    || !g.upright
    || (g.skew.Some? && (Abs(g.skew.value.0) > 0.1 || Abs(g.skew.value.1) > 0.1))
    || (g.color.Components? && forall c | c in g.color.values :: c > 0.5)
  }

  /** `page.chars`. */
  function Glyphs(page: seq<Object>): (r: seq<Glyph>)
    ensures |r| <= |page|
  {
    if |page| == 0 then []
    else Glyphs(page[..|page| - 1]) + if page[|page| - 1].Char? then [page[|page| - 1].glyph] else []
  }

  /** `page.filter` by the identity of the characters: those at the given positions among the characters are dropped. */
  function Without(page: seq<Object>, removed: set<nat>): (r: seq<Object>)
    ensures removed == {} ==> r == page
  {
    if |page| == 0 then []
    else
      var front, last := page[..|page| - 1], page[|page| - 1];
      Without(front, removed) + if last.Char? && |Glyphs(front)| in removed then [] else [last]
  }

  // ----- The passes -----

  /** `filter_watermark_page`. */
  function FilterWatermarks(page: seq<Object>): seq<Object> {
    if |page| == 0 then []
    else
      FilterWatermarks(page[..|page| - 1])
      + if page[|page| - 1].Char? && IsWatermark(page[|page| - 1].glyph) then [] else [page[|page| - 1]]
  }

  ghost predicate IsDuplicate(chars: seq<Glyph>, i: nat)
    requires i < |chars|
  {
    exists j | 0 <= j < i :: BucketOf(chars[j]) == BucketOf(chars[i])
  }

  /** A watermark, or a character whose bucket an earlier character that is no watermark has taken. */
  ghost predicate IsDropped(chars: seq<Glyph>, i: nat)
    requires i < |chars|
  {
    IsWatermark(chars[i]) || Taken(chars[..i], BucketOf(chars[i]))
  }

  ghost predicate Taken(chars: seq<Glyph>, bucket: Bucket) {
    exists j | 0 <= j < |chars| :: !IsWatermark(chars[j]) && BucketOf(chars[j]) == bucket
  }

  /** What is left after dropping watermarks and, among the rest, all but the first of a bucket. */
  ghost function Survivors(page: seq<Object>): seq<Object> {
    if |page| == 0 then []
    else
      var front, last := page[..|page| - 1], page[|page| - 1];
      Survivors(front)
      + if last.Char? && (IsWatermark(last.glyph) || Taken(Glyphs(front), BucketOf(last.glyph))) then [] else [last]
  }

  /** What is left of a page after the duplicates are dropped. */
  ghost function Firsts(page: seq<Object>): seq<Object> {
    if |page| == 0 then []
    else
      var front, last := page[..|page| - 1], page[|page| - 1];
      Firsts(front) + if last.Char? && (exists g | g in Glyphs(front) :: BucketOf(g) == BucketOf(last.glyph)) then [] else [last]
  }

  lemma GlyphsFront(page: seq<Object>)
    requires |page| > 0
    ensures |Glyphs(page[..|page| - 1])| <= |Glyphs(page)|
    ensures Glyphs(page)[..|Glyphs(page[..|page| - 1])|] == Glyphs(page[..|page| - 1])
    ensures page[|page| - 1].Char? ==> |Glyphs(page)| == |Glyphs(page[..|page| - 1])| + 1
                                       && Glyphs(page)[|Glyphs(page)| - 1] == page[|page| - 1].glyph
  {
  }

  lemma {:induction false} DroppingLeavesSurvivors(page: seq<Object>, removed: set<nat>)
    requires forall i | 0 <= i < |Glyphs(page)| :: i in removed <==> IsDropped(Glyphs(page), i)
    ensures Without(page, removed) == Survivors(page)
  {
    if |page| > 0 {
      var front, n := page[..|page| - 1], |Glyphs(page[..|page| - 1])|;
      GlyphsFront(page);
      forall i | 0 <= i < n ensures i in removed <==> IsDropped(Glyphs(front), i) {
        assert Glyphs(page)[..i] == Glyphs(front)[..i] && Glyphs(page)[i] == Glyphs(front)[i];
      }
      DroppingLeavesSurvivors(front, removed);
    }
  }

  lemma {:induction false} DroppingLeavesFirsts(page: seq<Object>, removed: set<nat>)
    requires forall i | 0 <= i < |Glyphs(page)| :: i in removed <==> IsDuplicate(Glyphs(page), i)
    ensures Without(page, removed) == Firsts(page)
  {
    if |page| > 0 {
      var front, last, n := page[..|page| - 1], page[|page| - 1], |Glyphs(page[..|page| - 1])|;
      GlyphsFront(page);
      forall i | 0 <= i < n ensures i in removed <==> IsDuplicate(Glyphs(front), i) {
        assert forall j | 0 <= j <= i :: Glyphs(page)[j] == Glyphs(front)[j];
      }
      DroppingLeavesFirsts(front, removed);
      if last.Char? {
        assert forall j | 0 <= j < n :: Glyphs(page)[j] == Glyphs(front)[j];
        assert (exists g | g in Glyphs(front) :: BucketOf(g) == BucketOf(last.glyph)) <==> IsDuplicate(Glyphs(page), n);
      }
    }
  }

  /** `_dedup_overlapping_chars`. */
  method DedupOverlappingChars(page: seq<Object>) returns (result: seq<Object>)
    ensures result == Firsts(page)
  {
    var chars := Glyphs(page);
    var seen: set<Bucket> := {};
    var duplicates: set<nat> := {};
    for i := 0 to |chars|
      invariant forall k :: k in seen <==> exists j | 0 <= j < i :: BucketOf(chars[j]) == k
      invariant forall j: nat :: j in duplicates <==> j < i && IsDuplicate(chars, j)
    {
      var key := BucketOf(chars[i]);
      if key in seen {
        duplicates := duplicates + {i};
      } else {
        seen := seen + {key};
      }
    }
    DroppingLeavesFirsts(page, duplicates);
    if duplicates == {} {
      return page;
    }
    result := Without(page, duplicates);
  }

  /** `fused_filter_and_dedup`. */
  method FusedFilterAndDedup(page: seq<Object>) returns (result: seq<Object>, watermarkFound: bool)
    ensures result == Survivors(page)
    ensures watermarkFound <==> exists i | 0 <= i < |Glyphs(page)| :: IsDropped(Glyphs(page), i)
  {
    var chars := Glyphs(page);
    var seen: set<Bucket> := {};
    var removed: set<nat> := {};
    for i := 0 to |chars|
      invariant forall k :: k in seen <==> Taken(chars[..i], k)
      invariant forall j: nat :: j in removed <==> j < i && IsDropped(chars, j)
    {
      TakenNext(chars, i);
      if IsWatermark(chars[i]) {
        removed := removed + {i};
        continue;
      }
      var key := BucketOf(chars[i]);
      if key in seen {
        removed := removed + {i};
      } else {
        seen := seen + {key};
      }
    }
    DroppingLeavesSurvivors(page, removed);
    watermarkFound := removed != {};
    if removed == {} {
      return page, false;
    }
    var some :| some in removed;
    result := Without(page, removed);
  }

  lemma TakenNext(chars: seq<Glyph>, i: nat)
    requires i < |chars|
    ensures forall k :: Taken(chars[..i + 1], k) <==> Taken(chars[..i], k) || (!IsWatermark(chars[i]) && BucketOf(chars[i]) == k)
  {
    forall k ensures Taken(chars[..i + 1], k) <==> Taken(chars[..i], k) || (!IsWatermark(chars[i]) && BucketOf(chars[i]) == k) {
      assert chars[..i + 1] == chars[..i] + [chars[i]];
      if Taken(chars[..i], k) {
        var j :| 0 <= j < i && !IsWatermark(chars[..i][j]) && BucketOf(chars[..i][j]) == k;
        assert chars[..i + 1][j] == chars[..i][j];
      } else if !IsWatermark(chars[i]) && BucketOf(chars[i]) == k {
        assert chars[..i + 1][i] == chars[i];
      }
    }
  }

  // ----- One pass for two -----

  lemma {:induction false} FilteredGlyphs(page: seq<Object>, g: Glyph)
    ensures g in Glyphs(FilterWatermarks(page)) <==> g in Glyphs(page) && !IsWatermark(g)
  {
    if |page| > 0 {
      var front, last := page[..|page| - 1], page[|page| - 1];
      FilteredGlyphs(front, g);
      var filtered := FilterWatermarks(front);
      assert (filtered + [last])[..|filtered|] == filtered;
      assert filtered + [] == filtered;
    }
  }

  /** The single pass keeps the objects, in order, that filtering watermarks and then dropping duplicates keeps. */
  lemma {:induction false} FusedIsFilterThenDedup(page: seq<Object>)
    ensures Survivors(page) == Firsts(FilterWatermarks(page))
  {
    if |page| > 0 {
      var front, last := page[..|page| - 1], page[|page| - 1];
      FusedIsFilterThenDedup(front);
      var filtered := FilterWatermarks(front);
      assert (filtered + [last])[..|filtered|] == filtered;
      assert filtered + [] == filtered;
      if last.Char? && !IsWatermark(last.glyph) {
        TakenIffFiltered(front, BucketOf(last.glyph));
      }
    }
  }

  lemma TakenIffFiltered(page: seq<Object>, bucket: Bucket)
    ensures Taken(Glyphs(page), bucket) <==> exists g | g in Glyphs(FilterWatermarks(page)) :: BucketOf(g) == bucket
  {
    if g :| g in Glyphs(FilterWatermarks(page)) && BucketOf(g) == bucket {
      FilteredGlyphs(page, g);
    }
    if Taken(Glyphs(page), bucket) {
      var j :| 0 <= j < |Glyphs(page)| && !IsWatermark(Glyphs(page)[j]) && BucketOf(Glyphs(page)[j]) == bucket;
      FilteredGlyphs(page, Glyphs(page)[j]);
    }
  }

  // ----- What is left -----

  /** No watermark is left and no bucket holds two characters. */
  ghost predicate IsClean(page: seq<Object>) {
    && (forall g | g in Glyphs(page) :: !IsWatermark(g))
    && forall i, j | 0 <= i < j < |Glyphs(page)| :: BucketOf(Glyphs(page)[i]) != BucketOf(Glyphs(page)[j])
  }

  lemma GlyphsNext(page: seq<Object>, last: Object)
    ensures Glyphs(page + [last]) == Glyphs(page) + if last.Char? then [last.glyph] else []
  {
    assert (page + [last])[..|page|] == page;
  }

  lemma {:induction false} SurvivorsAreClean(page: seq<Object>)
    ensures IsClean(Survivors(page))
    ensures forall bucket :: (exists g | g in Glyphs(Survivors(page)) :: BucketOf(g) == bucket) <==> Taken(Glyphs(page), bucket)
  {
    if |page| > 0 {
      var front, last := page[..|page| - 1], page[|page| - 1];
      SurvivorsAreClean(front);
      GlyphsNext(Survivors(front), last);
      assert Survivors(front) + [] == Survivors(front);
      LastTaken(page);
    }
  }

  lemma LastTaken(page: seq<Object>)
    requires |page| > 0
    ensures var last := page[|page| - 1];
            forall bucket :: Taken(Glyphs(page), bucket)
              <==> Taken(Glyphs(page[..|page| - 1]), bucket) || (last.Char? && !IsWatermark(last.glyph) && BucketOf(last.glyph) == bucket)
  {
    var front, last, n := page[..|page| - 1], page[|page| - 1], |Glyphs(page[..|page| - 1])|;
    GlyphsFront(page);
    if last.Char? {
      TakenNext(Glyphs(page), n);
      assert Glyphs(page)[..n + 1] == Glyphs(page);
    } else {
      assert Glyphs(page) == Glyphs(front);
    }
  }

  /** A clean page passes unchanged, so a second pass changes nothing. */
  lemma {:induction false} CleanStays(page: seq<Object>)
    ensures IsClean(page) <==> Survivors(page) == page
  {
    if IsClean(page) {
      CleanKept(page);
    }
    if Survivors(page) == page {
      SurvivorsAreClean(page);
    }
  }

  lemma {:induction false} CleanKept(page: seq<Object>)
    requires IsClean(page)
    ensures Survivors(page) == page
  {
    if |page| > 0 {
      var front, last, n := page[..|page| - 1], page[|page| - 1], |Glyphs(page[..|page| - 1])|;
      GlyphsFront(page);
      assert forall i | 0 <= i < n :: Glyphs(page)[i] == Glyphs(front)[i];
      CleanKept(front);
      if last.Char? {
        assert Glyphs(page)[n] == last.glyph && last.glyph in Glyphs(page);
      }
      assert page == front + [last];
    }
  }

  /** The second result says whether anything was dropped, and not whether there was a watermark: duplicates alone set it. */
  lemma DuplicatesCountAsWatermarks(g: Glyph)
    requires !IsWatermark(g)
    ensures var page := [Char(g), Char(g)];
            (forall h | h in Glyphs(page) :: !IsWatermark(h)) && |Glyphs(page)| == 2 && IsDropped(Glyphs(page), 1)
  {
    var page := [Char(g), Char(g)];
    assert page[..1] == [Char(g)] && page[..1][..0] == [];
    assert Glyphs([Char(g)]) == [g];
    assert Glyphs(page) == [g, g];
    assert [g, g][..1][0] == g;
  }

  /** The order of the two passes matters: dropping duplicates first lets a watermark take the place of a character. */
  lemma DedupThenFilterLosesText(g: Glyph)
    requires !IsWatermark(g)
    ensures var page := [Char(g.(upright := false)), Char(g)];
            FilterWatermarks(Firsts(page)) == [] && Survivors(page) == [Char(g)]
  {
    var shadow := Char(g.(upright := false));
    var page := [shadow, Char(g)];
    assert page[..1] == [shadow] && page[..1][..0] == [] && Glyphs([shadow]) == [shadow.glyph];
    assert shadow.glyph in Glyphs([shadow]) && BucketOf(shadow.glyph) == BucketOf(g);
    assert Firsts([shadow]) == [shadow] && Firsts(page) == [shadow];
    assert [shadow][..0] == [];
    assert FilterWatermarks([shadow]) == [] && Survivors([shadow]) == [];
    assert !Taken([shadow.glyph], BucketOf(g));
  }
}
