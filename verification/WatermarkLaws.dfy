/** The fused watermark pass said on the characters of a page: which are watermarks, which are in the same place, and which
    are kept. */
module WatermarkLaws {
  import opened Options
  import opened Reals
  import opened Watermark

  /** Upright, not skewed by more than 0.1, and, if a colour is given, with a component of at most 0.5. */
  ghost predicate IsText(g: Glyph) {
    && g.upright
    && (g.skew.Some? ==> -0.1 <= g.skew.value.0 <= 0.1 && -0.1 <= g.skew.value.1 <= 0.1)
    && (g.color.Components? ==> exists i :: 0 <= i < |g.color.values| && g.color.values[i] <= 0.5)
  }

  lemma TextIff(g: Glyph)
    ensures IsWatermark(g) <==> !IsText(g)
  {
    if g.color.Components? {
      var values := g.color.values;
      if c :| c in values && c <= 0.5 {
        var i :| 0 <= i < |values| && values[i] == c;
      }
      assert forall i | 0 <= i < |values| :: values[i] in values;
    }
  }

  /** The stripes of three points that coordinates fall into; around zero there are six in one, as numbers are cut towards
      zero. */
  ghost predicate InStripe(x: real, n: int) {
    if n > 0 then 3.0 * n as real <= x < 3.0 * n as real + 3.0
    else if n == 0 then -3.0 < x < 3.0
    else 3.0 * n as real - 3.0 < x <= 3.0 * n as real
  }

  lemma StripeIff(x: real, n: int)
    ensures Truncate(x / 3.0) == n <==> InStripe(x, n)
  {
  }

  /** The same text in the same stripes. */
  ghost predicate SamePlace(g: Glyph, h: Glyph) {
    && g.text == h.text
    && (exists n :: InStripe(g.x0, n) && InStripe(h.x0, n)) && (exists n :: InStripe(g.top, n) && InStripe(h.top, n))
  }

  lemma PlaceIff(g: Glyph, h: Glyph)
    ensures BucketOf(g) == BucketOf(h) <==> SamePlace(g, h)
  {
    StripesIff(g.x0, h.x0);
    StripesIff(g.top, h.top);
  }

  lemma StripesIff(x: real, y: real)
    ensures Truncate(x / 3.0) == Truncate(y / 3.0) <==> exists n :: InStripe(x, n) && InStripe(y, n)
  {
    StripeIff(x, Truncate(x / 3.0));
    StripeIff(y, Truncate(y / 3.0));
    if Truncate(x / 3.0) == Truncate(y / 3.0) {
      assert InStripe(x, Truncate(x / 3.0)) && InStripe(y, Truncate(x / 3.0));
    }
    if n :| InStripe(x, n) && InStripe(y, n) {
      StripeIff(x, n);
      StripeIff(y, n);
    }
  }

  // ----- What is kept -----

  /** An earlier character is text in the same place. */
  ghost predicate Covered(page: seq<Object>, g: Glyph) {
    exists j :: 0 <= j < |page| && page[j].Char? && IsText(page[j].glyph) && SamePlace(page[j].glyph, g)
  }

  /** The object at position i stays: it is no character, or it is text and the first in its place. */
  ghost predicate Stays(page: seq<Object>, i: nat)
    requires i < |page|
  {
    page[i].Char? ==> IsText(page[i].glyph) && !Covered(page[..i], page[i].glyph)
  }

  /** The objects that stay, in order. */
  ghost function Staying(page: seq<Object>, n: nat): seq<Object>
    requires n <= |page|
  {
    if n == 0 then [] else Staying(page, n - 1) + if Stays(page, n - 1) then [page[n - 1]] else []
  }

  lemma {:induction false} GlyphAt(page: seq<Object>, g: Glyph)
    ensures g in Glyphs(page) <==> exists j :: 0 <= j < |page| && page[j].Char? && page[j].glyph == g
  {
    if |page| > 0 {
      var front, last := page[..|page| - 1], page[|page| - 1];
      GlyphAt(front, g);
      if j :| 0 <= j < |front| && front[j].Char? && front[j].glyph == g {
        assert page[j].Char? && page[j].glyph == g;
      }
      if j :| 0 <= j < |page| && page[j].Char? && page[j].glyph == g {
        assert j < |front| ==> front[j].Char? && front[j].glyph == g;
        assert j == |front| ==> last == page[j];
      }
    }
  }

  lemma TakenIff(page: seq<Object>, g: Glyph)
    ensures Taken(Glyphs(page), BucketOf(g)) <==> Covered(page, g)
  {
    if Taken(Glyphs(page), BucketOf(g)) {
      var k :| 0 <= k < |Glyphs(page)| && !IsWatermark(Glyphs(page)[k]) && BucketOf(Glyphs(page)[k]) == BucketOf(g);
      var h := Glyphs(page)[k];
      GlyphAt(page, h);
      TextIff(h);
      PlaceIff(h, g);
      var j :| 0 <= j < |page| && page[j].Char? && page[j].glyph == h;
    }
    if Covered(page, g) {
      var j :| 0 <= j < |page| && page[j].Char? && IsText(page[j].glyph) && SamePlace(page[j].glyph, g);
      var h := page[j].glyph;
      GlyphAt(page, h);
      TextIff(h);
      PlaceIff(h, g);
      var k :| 0 <= k < |Glyphs(page)| && Glyphs(page)[k] == h;
    }
  }

  lemma {:induction false} SurvivorsStay(page: seq<Object>, n: nat)
    requires n <= |page|
    ensures Survivors(page[..n]) == Staying(page, n)
  {
    if n > 0 {
      var last := page[n - 1];
      SurvivorsStay(page, n - 1);
      assert page[..n][..n - 1] == page[..n - 1];
      if last.Char? {
        TextIff(last.glyph);
        TakenIff(page[..n - 1], last.glyph);
      }
    }
  }

  /** The fused pass keeps, in order, everything that is no character, and of the characters those that are text and the
      first in their place. */
  lemma SurvivorsAre(page: seq<Object>)
    ensures Survivors(page) == Staying(page, |page|)
  {
    SurvivorsStay(page, |page|);
    assert page[..|page|] == page;
  }

  /** Without the watermark test: the first character in its place stays. */
  ghost function FirstInPlace(page: seq<Object>, n: nat): seq<Object>
    requires n <= |page|
  {
    if n == 0 then []
    else
      FirstInPlace(page, n - 1)
      + if page[n - 1].Char? && Shadowed(page[..n - 1], page[n - 1].glyph) then [] else [page[n - 1]]
  }

  ghost predicate Shadowed(page: seq<Object>, g: Glyph) {
    exists j :: 0 <= j < |page| && page[j].Char? && SamePlace(page[j].glyph, g)
  }

  lemma ShadowedIff(page: seq<Object>, g: Glyph)
    ensures (exists h | h in Glyphs(page) :: BucketOf(h) == BucketOf(g)) <==> Shadowed(page, g)
  {
    if h :| h in Glyphs(page) && BucketOf(h) == BucketOf(g) {
      GlyphAt(page, h);
      PlaceIff(h, g);
      var j :| 0 <= j < |page| && page[j].Char? && page[j].glyph == h;
    }
    if Shadowed(page, g) {
      var j :| 0 <= j < |page| && page[j].Char? && SamePlace(page[j].glyph, g);
      GlyphAt(page, page[j].glyph);
      PlaceIff(page[j].glyph, g);
    }
  }

  /** What the duplicate pass keeps. */
  lemma {:induction false} FirstsAre(page: seq<Object>, n: nat)
    requires n <= |page|
    ensures Firsts(page[..n]) == FirstInPlace(page, n)
  {
    if n > 0 {
      FirstsAre(page, n - 1);
      assert page[..n][..n - 1] == page[..n - 1];
      if page[n - 1].Char? {
        ShadowedIff(page[..n - 1], page[n - 1].glyph);
      }
    }
  }

  // ----- The flag -----

  ghost predicate SomeDropped(page: seq<Object>) {
    exists i | 0 <= i < |Glyphs(page)| :: IsDropped(Glyphs(page), i)
  }

  lemma DroppedIffUnclean(page: seq<Object>)
    ensures SomeDropped(page) <==> !IsClean(page)
  {
    var chars := Glyphs(page);
    if SomeDropped(page) {
      var i :| 0 <= i < |chars| && IsDropped(chars, i);
      if !IsWatermark(chars[i]) {
        var j :| 0 <= j < |chars[..i]| && !IsWatermark(chars[..i][j]) && BucketOf(chars[..i][j]) == BucketOf(chars[i]);
        assert chars[..i][j] == chars[j];
      }
    } else {
      forall i | 0 <= i < |chars| ensures !IsWatermark(chars[i]) {
        assert !IsDropped(chars, i);
      }
      forall i, j | 0 <= i < j < |chars| ensures BucketOf(chars[i]) != BucketOf(chars[j]) {
        assert !IsDropped(chars, j) && chars[..j][i] == chars[i];
      }
    }
  }

  /** The flag that the pass returns says whether the page has changed. */
  lemma FlagIff(page: seq<Object>)
    ensures SomeDropped(page) <==> Staying(page, |page|) != page
  {
    DroppedIffUnclean(page);
    CleanStays(page);
    SurvivorsAre(page);
  }
}
