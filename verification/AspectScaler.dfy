/** The integer video scaler: which picture size a panel is asked to show. */
module AspectScaler {
  import opened Basics

  const WIDTH12 := 4096

  /** Results of the divider and multiplier are used as 12 bits. */
  function M12(x: nat): (r: nat)
    ensures r < WIDTH12 && r <= x && (x < WIDTH12 ==> r == x)
  {
    x % WIDTH12
  }

  datatype Picture = Ratio(x: nat, y: nat) | Size(width: nat, height: nat)

  /** The state machine's registers before the mode picks a width. */
  datatype Parts = Parts(hinteger: nat, oheight: nat, divNum: nat, htarget: Option<nat>)

  function AtLeastOne(f: nat): nat { if f == 0 then 1 else f }

  /** Source pixels repeated to fill the panel's width. */
  function WidthPath(w: nat, hsize: nat, vsize: nat, htarget: Option<nat>): Parts
    requires hsize > 0
  {
    var f2 := AtLeastOne(M12(w / hsize));
    Parts(M12(hsize * f2), M12(vsize * f2), w, htarget)
  }

  function Candidate(hsize: nat, htarget: nat): nat
    requires hsize > 0
  {
    M12(hsize * AtLeastOne(M12(htarget / hsize)))
  }

  function Layout(w: nat, k: nat, hsize: nat, vsize: nat, arx: nat, ary: nat): Parts
    requires hsize > 0
  {
    var oheight := M12(vsize * k);
    if ary == 0 then WidthPath(w, hsize, vsize, None)
    else
      var htarget := M12(oheight * arx / ary);
      if Candidate(hsize, htarget) <= w then Parts(Candidate(hsize, htarget), oheight, htarget, Some(htarget))
      else WidthPath(w, hsize, vsize, Some(htarget))
  }

  function Width(w: nat, scale: nat, hsize: nat, p: Parts): nat {
    var wideres := p.hinteger + hsize;
    var narrow := (p.htarget.Some? && p.htarget.value - p.hinteger <= wideres - p.htarget.value) || wideres > w;
    var wres := if p.htarget.Some? && p.hinteger == p.htarget.value then p.hinteger else wideres;
    if scale == 2 then p.hinteger
    else if scale == 3 then (if wres > w then p.hinteger else wres)
    else if scale == 4 then (if narrow then p.hinteger else wres)
    else p.divNum
  }

  function ScaleInt(w: nat, h: nat, scale: nat, hsize: nat, vsize: nat, arx: nat, ary: nat): Picture
    requires hsize > 0 && vsize > 0
  {
    var k := M12(h / vsize);
    if scale == 0 || (ary == 0 && arx != 0) || k == 0 then Ratio(arx, ary)
    else
      var p := Layout(w, k, hsize, vsize, arx, ary);
      Size(Width(w, scale, hsize, p), p.oheight)
  }

  // ---- arithmetic -------------------------------------------------------------

  lemma DivBounds(a: nat, b: nat)
    requires b > 0
    ensures b * (a / b) <= a < b * (a / b + 1)
  {
    assert a == b * (a / b) + a % b;
    assert b * (a / b + 1) == b * (a / b) + b;
  }

  lemma MulMonotone(c: nat, x: nat, y: nat)
    requires x <= y
    ensures c * x <= c * y
  {
  }

  lemma MulStrict(c: nat, x: nat, y: nat)
    requires c > 0
    ensures c * x < c * y <==> x < y
  {
    if x < y {
      MulMonotone(c, x + 1, y);
      assert c * (x + 1) == c * x + c;
    } else {
      MulMonotone(c, y, x);
    }
  }

  lemma DivOfMul(c: nat, k: nat)
    requires c > 0
    ensures c * k / c == k
  {
    DivBounds(c * k, c);
    MulStrict(c, k, c * k / c + 1);
    MulStrict(c, c * k / c, k + 1);
    assert c * (k + 1) == c * k + c;
  }

  /** a / b <= q when a <= b * q. */
  lemma DivAtMost(a: nat, b: nat, q: nat)
    requires b > 0 && a <= b * q
    ensures a / b <= q
  {
    var d := a / b;
    assert b * d <= a by { DivBounds(a, b); }
    Cancel(a, b, d, q);
  }

  lemma Cancel(a: nat, b: nat, d: nat, q: nat)
    requires b > 0 && b * d <= a <= b * q
    ensures d <= q
  {
    MulStrict(b, q, d);
  }

  /** The requested width, before the 12-bit cut, is at most k source widths,
      and exactly that for the source's own ratio. */
  lemma TargetBound(k: nat, hsize: nat, vsize: nat, arx: nat, ary: nat)
    requires ary > 0 && arx * vsize <= ary * hsize
    ensures vsize * k * arx / ary <= hsize * k
    ensures arx * vsize == ary * hsize ==> vsize * k * arx / ary == hsize * k
  {
    var t := vsize * k * arx;
    assert t == (arx * vsize) * k by {
      assert vsize * k * arx == vsize * (k * arx) == vsize * (arx * k);
      assert vsize * (arx * k) == (vsize * arx) * k;
    }
    assert (ary * hsize) * k == ary * (hsize * k);
    MulLeft(k, arx * vsize, ary * hsize);
    DivAtMost(t, ary, hsize * k);
    if arx * vsize == ary * hsize {
      DivOfMul(ary, hsize * k);
    }
  }

  lemma MulLeft(k: nat, x: nat, y: nat)
    requires x <= y
    ensures x * k <= y * k
  {
  }

  // ---- the picture fits the panel ------------------------------------------------

  ghost predicate Panel(w: nat, h: nat, hsize: nat, vsize: nat) {
    0 < hsize < WIDTH12 && 0 < vsize <= h && w < WIDTH12 && h < WIDTH12
  }

  ghost predicate Multiple(x: nat, size: nat, q: nat) { q >= 1 && x == size * q }

  /** Rows: the panel holds k >= 1 of them and nothing is cut. */
  lemma Rows(h: nat, vsize: nat)
    requires 0 < vsize <= h < WIDTH12
    ensures var k := h / vsize; M12(k) == k && k >= 1 && vsize * k <= h && M12(vsize * k) == vsize * k && k < WIDTH12
  {
    var k := h / vsize;
    DivBounds(h, vsize);
    MulStrict(vsize, 1, k + 1);
    MulLeft(k, 1, vsize);
  }

  lemma WidthPathShape(w: nat, hsize: nat, vsize: nat, t: Option<nat>)
    requires 0 < hsize <= w < WIDTH12
    ensures var f, p := w / hsize, WidthPath(w, hsize, vsize, t);
            f >= 1 && p.hinteger == hsize * f && hsize * f <= w < hsize * (f + 1) && p.oheight == M12(vsize * f)
  {
    Rows(w, hsize);
    DivBounds(w, hsize);
  }

  lemma CandidateShape(hsize: nat, htarget: nat)
    requires 0 < hsize < WIDTH12 && htarget < WIDTH12
    ensures Candidate(hsize, htarget) == hsize * AtLeastOne(htarget / hsize)
    ensures htarget >= hsize ==> Candidate(hsize, htarget) <= htarget
  {
    var f := htarget / hsize;
    DivBounds(htarget, hsize);
    MulLeft(f, 1, hsize);
    if f == 0 { assert hsize * (f + 1) == hsize; }
  }

  /** Panel at least as wide as the source: both sizes are whole multiples of the source's and fit. */
  lemma LayoutFits(w: nat, h: nat, hsize: nat, vsize: nat, arx: nat, ary: nat) returns (q: nat, r: nat)
    requires Panel(w, h, hsize, vsize) && hsize <= w && ary > 0 && arx * vsize <= ary * hsize
    ensures var p := Layout(w, h / vsize, hsize, vsize, arx, ary);
            Multiple(p.hinteger, hsize, q) && Multiple(p.oheight, vsize, r) && p.hinteger <= w && p.oheight <= h
  {
    var k := h / vsize;
    Rows(h, vsize);
    var full := vsize * k * arx / ary;
    var htarget := M12(full);
    TargetBound(k, hsize, vsize, arx, ary);
    CandidateShape(hsize, htarget);
    var p := Layout(w, k, hsize, vsize, arx, ary);
    if Candidate(hsize, htarget) <= w {
      q, r := AtLeastOne(htarget / hsize), k;
    } else {
      var f2 := w / hsize;
      WidthPathShape(w, hsize, vsize, Some(htarget));
      DivAtMost(htarget, hsize, k);
      MulStrict(hsize, f2, AtLeastOne(htarget / hsize));
      MulMonotone(vsize, f2, k);
      q, r := f2, f2;
    }
  }

  /** Every integer mode widens by nothing or by one source width, and only when that fits. */
  lemma WidthChoice(w: nat, scale: nat, hsize: nat, p: Parts)
    requires 2 <= scale <= 4
    ensures var x := Width(w, scale, hsize, p);
            x == p.hinteger || (x == p.hinteger + hsize && x <= w)
  {
  }

  ghost predicate FitsInMultiples(r: Picture, w: nat, h: nat, hsize: nat, vsize: nat) {
    r.Size? && r.width <= w && r.height <= h
    && exists q: nat, s: nat :: Multiple(r.width, hsize, q) && Multiple(r.height, vsize, s)
  }

  lemma OneMore(size: nat, x: nat, y: nat, q: nat)
    requires Multiple(x, size, q) && (y == x || y == x + size)
    ensures exists m: nat :: Multiple(y, size, m)
  {
    assert size * (q + 1) == size * q + size;
    assert Multiple(y, size, if y == x then q else q + 1);
  }

  lemma WidePanelFits(w: nat, h: nat, scale: nat, hsize: nat, vsize: nat, arx: nat, ary: nat)
    requires Panel(w, h, hsize, vsize) && hsize <= w && 2 <= scale <= 4 && ary > 0 && arx * vsize <= ary * hsize
    ensures FitsInMultiples(ScaleInt(w, h, scale, hsize, vsize, arx, ary), w, h, hsize, vsize)
  {
    hide Layout, Width;
    Rows(h, vsize);
    var q, r := LayoutFits(w, h, hsize, vsize, arx, ary);
    var p := Layout(w, h / vsize, hsize, vsize, arx, ary);
    WidthChoice(w, scale, hsize, p);
    var x := Width(w, scale, hsize, p);
    OneMore(hsize, p.hinteger, x, q);
  }

  lemma NarrowWidthPath(w: nat, hsize: nat, vsize: nat, t: Option<nat>)
    requires w < hsize < WIDTH12
    ensures WidthPath(w, hsize, vsize, t).hinteger == hsize
  {
    assert w / hsize == 0;
    assert hsize * 1 == hsize;
  }

  lemma NarrowPanel(w: nat, h: nat, hsize: nat, vsize: nat, arx: nat, ary: nat)
    requires Panel(w, h, hsize, vsize) && w < hsize && ary > 0
    ensures Layout(w, h / vsize, hsize, vsize, arx, ary).hinteger == hsize
  {
    hide Candidate, WidthPath, M12;
    var htarget := M12(M12(vsize * (h / vsize)) * arx / ary);
    CandidateShape(hsize, htarget);
    MulMonotone(hsize, 1, AtLeastOne(htarget / hsize));
    NarrowWidthPath(w, hsize, vsize, Some(htarget));
  }

  lemma NarrowPanelOverflows(w: nat, h: nat, scale: nat, hsize: nat, vsize: nat, arx: nat, ary: nat)
    requires Panel(w, h, hsize, vsize) && w < hsize && 2 <= scale <= 4 && ary > 0
    ensures var r := ScaleInt(w, h, scale, hsize, vsize, arx, ary); r.Size? && r.width > w
  {
    hide Layout, Width;
    Rows(h, vsize);
    NarrowPanel(w, h, hsize, vsize, arx, ary);
    WidthChoice(w, scale, hsize, Layout(w, h / vsize, hsize, vsize, arx, ary));
  }

  /** For any ratio no wider than the source's, the integer modes ask for whole
      source multiples inside the panel exactly when the panel is at least as
      wide as the source, even where the 12-bit cut truncates the target. */
  lemma NoOverflow(w: nat, h: nat, scale: nat, hsize: nat, vsize: nat, arx: nat, ary: nat)
    requires Panel(w, h, hsize, vsize) && 2 <= scale <= 4 && ary > 0 && arx * vsize <= ary * hsize
    ensures FitsInMultiples(ScaleInt(w, h, scale, hsize, vsize, arx, ary), w, h, hsize, vsize) <==> hsize <= w
  {
    hide ScaleInt;
    if hsize <= w {
      WidePanelFits(w, h, scale, hsize, vsize, arx, ary);
    } else {
      NarrowPanelOverflows(w, h, scale, hsize, vsize, arx, ary);
    }
  }

  // ---- and is the best one -----------------------------------------------------------

  function Best(w: nat, h: nat, hsize: nat, vsize: nat): nat
    requires hsize > 0 && vsize > 0
  {
    if w / hsize < h / vsize then w / hsize else h / vsize
  }

  /** The best factor fits, and every factor that fits is at most the best one. */
  lemma BestIsLargest(w: nat, h: nat, hsize: nat, vsize: nat, g: nat)
    requires hsize > 0 && vsize > 0
    ensures (hsize * g <= w && vsize * g <= h) <==> g <= Best(w, h, hsize, vsize)
  {
    DivBounds(w, hsize);
    DivBounds(h, vsize);
    var f := Best(w, h, hsize, vsize);
    if g <= f {
      MulMonotone(hsize, g, w / hsize);
      MulMonotone(vsize, g, h / vsize);
    } else {
      MulMonotone(hsize, f + 1, g);
      MulMonotone(vsize, f + 1, g);
    }
  }

  function BestPicture(w: nat, h: nat, hsize: nat, vsize: nat): Picture
    requires hsize > 0 && vsize > 0
  {
    Size(hsize * Best(w, h, hsize, vsize), vsize * Best(w, h, hsize, vsize))
  }

  /** When the target survives its 12-bit cut, or when what is left of it is
      still wider than the panel. */
  ghost predicate TargetUsable(w: nat, h: nat, hsize: nat, vsize: nat)
    requires hsize > 0 && vsize > 0
  {
    var full := hsize * (h / vsize);
    full < WIDTH12 || hsize * AtLeastOne(full % WIDTH12 / hsize) > w
  }

  /** For the source's own ratio, every integer mode shows the best fit exactly
      when the target is usable. */
  lemma BestFitIff(w: nat, h: nat, scale: nat, hsize: nat, vsize: nat, arx: nat, ary: nat)
    requires Panel(w, h, hsize, vsize) && hsize <= w && 2 <= scale <= 4 && ary > 0 && arx * vsize == ary * hsize
    ensures ScaleInt(w, h, scale, hsize, vsize, arx, ary) == BestPicture(w, h, hsize, vsize)
            <==> TargetUsable(w, h, hsize, vsize)
  {
    var k := h / vsize;
    var htarget := M12(hsize * k);
    Rows(h, vsize);
    TargetBound(k, hsize, vsize, arx, ary);
    CandidateShape(hsize, htarget);
    WidthPathShape(w, hsize, vsize, Some(htarget));
    DivOfMul(hsize, k);
    if Candidate(hsize, htarget) <= w {
      ShownDirectly(w, h, scale, hsize, vsize, arx, ary);
    } else {
      ShownByWidth(w, h, scale, hsize, vsize, arx, ary);
    }
  }

  /** The candidate fits: all k rows are shown. */
  lemma ShownDirectly(w: nat, h: nat, scale: nat, hsize: nat, vsize: nat, arx: nat, ary: nat)
    requires Panel(w, h, hsize, vsize) && hsize <= w && 2 <= scale <= 4 && ary > 0 && arx * vsize == ary * hsize
    requires Candidate(hsize, M12(hsize * (h / vsize))) <= w
    ensures ScaleInt(w, h, scale, hsize, vsize, arx, ary) == BestPicture(w, h, hsize, vsize) <==> hsize * (h / vsize) < WIDTH12
  {
    var k := h / vsize;
    var full := hsize * k;
    Rows(h, vsize);
    TargetBound(k, hsize, vsize, arx, ary);
    CandidateShape(hsize, M12(full));
    DivOfMul(hsize, k);
    DivBounds(w, hsize);
    MulStrict(hsize, w / hsize, k);
    MulStrict(hsize, k, w / hsize + 1);
    MulStrict(vsize, Best(w, h, hsize, vsize), k);
    assert ScaleInt(w, h, scale, hsize, vsize, arx, ary).height == vsize * k;
  }

  /** The candidate does not fit: the width decides. */
  lemma ShownByWidth(w: nat, h: nat, scale: nat, hsize: nat, vsize: nat, arx: nat, ary: nat)
    requires Panel(w, h, hsize, vsize) && hsize <= w && 2 <= scale <= 4 && ary > 0 && arx * vsize == ary * hsize
    requires Candidate(hsize, M12(hsize * (h / vsize))) > w
    ensures ScaleInt(w, h, scale, hsize, vsize, arx, ary) == BestPicture(w, h, hsize, vsize)
  {
    var k, f2 := h / vsize, w / hsize;
    var htarget := M12(hsize * k);
    Rows(h, vsize);
    TargetBound(k, hsize, vsize, arx, ary);
    CandidateShape(hsize, htarget);
    WidthPathShape(w, hsize, vsize, Some(htarget));
    DivAtMost(htarget, hsize, k);
    MulStrict(hsize, f2, AtLeastOne(htarget / hsize));
    MulMonotone(vsize, f2, k);
    assert hsize * (f2 + 1) == hsize * f2 + hsize;
  }

  /** In particular whenever k source widths fit in twelve bits. */
  lemma BestFit(w: nat, h: nat, scale: nat, hsize: nat, vsize: nat, arx: nat, ary: nat)
    requires Panel(w, h, hsize, vsize) && hsize <= w && 2 <= scale <= 4 && ary > 0 && arx * vsize == ary * hsize
    requires hsize * (h / vsize) < WIDTH12
    ensures ScaleInt(w, h, scale, hsize, vsize, arx, ary) == BestPicture(w, h, hsize, vsize)
  {
    BestFitIff(w, h, scale, hsize, vsize, arx, ary);
  }

  /** A 640x3360 panel holds seven source heights: the target 640 * 7 is cut to
      384, and one source width is shown seven source heights tall. */
  lemma TruncatedTargetIsNotBest()
    ensures ScaleInt(640, 3360, 2, 640, 480, 4, 3) == Size(640, 3360) != BestPicture(640, 3360, 640, 480)
  {
  }

  // ---- V-Integer ------------------------------------------------------------------------

  /** Mode 1 shows the target itself. It asks for more than the panel exactly
      when the target is wider than the panel and no source multiple lies between. */
  lemma VIntegerOverflowsIff(w: nat, h: nat, hsize: nat, vsize: nat, arx: nat, ary: nat)
    requires Panel(w, h, hsize, vsize) && hsize <= w && ary > 0
    ensures var htarget := M12(vsize * (h / vsize) * arx / ary);
            ScaleInt(w, h, 1, hsize, vsize, arx, ary).width > w <==> w < htarget && htarget / hsize == w / hsize
  {
    var k := h / vsize;
    Rows(h, vsize);
    var htarget := M12(vsize * k * arx / ary);
    CandidateShape(hsize, htarget);
    DivBounds(w, hsize);
    DivBounds(htarget, hsize);
    MulStrict(hsize, w / hsize, htarget / hsize);
    if w < htarget {
      if htarget / hsize < w / hsize { MulMonotone(hsize, htarget / hsize + 1, w / hsize); }
      if w / hsize < htarget / hsize { MulMonotone(hsize, w / hsize + 1, htarget / hsize); }
    }
  }

  /** The retired 256:171 ratio overflows a 1280x1024 panel, and worse. */
  lemma OldRatioOverflows()
    ensures ScaleInt(1280, 1024, 1, 640, 480, 256, 171) == Size(1437, 960)
    ensures ScaleInt(1024, 768, 1, 512, 384, 256, 171) == Size(1149, 768)
    ensures ScaleInt(1280, 720, 3, 640, 480, 256, 171) == Size(1280, 480)
  {
  }

  /** With the source's own ratio mode 1 overflows exactly when what the 12-bit
      cut leaves of the target is wider than the panel with no source multiple
      between; so never while the target itself fits in twelve bits. */
  lemma OwnRatioOverflowsIff(w: nat, h: nat, hsize: nat, vsize: nat, arx: nat, ary: nat)
    requires Panel(w, h, hsize, vsize) && hsize <= w && ary > 0 && arx * vsize == ary * hsize
    ensures var cut := hsize * (h / vsize) % WIDTH12;
            ScaleInt(w, h, 1, hsize, vsize, arx, ary).width > w <==> w < cut && cut / hsize == w / hsize
    ensures hsize * (h / vsize) < WIDTH12 ==> ScaleInt(w, h, 1, hsize, vsize, arx, ary).width <= w
  {
    var k := h / vsize;
    TargetBound(k, hsize, vsize, arx, ary);
    VIntegerOverflowsIff(w, h, hsize, vsize, arx, ary);
    DivOfMul(hsize, k);
    DivBounds(w, hsize);
  }

  /** A 640x3840 panel: the source's own 4:3 asks for 1024 columns. */
  lemma OwnRatioCanOverflow()
    ensures ScaleInt(640, 3840, 1, 640, 480, 4, 3) == Size(1024, 3840)
  {
  }

  /** All the rows' worth of columns fit, or the cut target's multiple does not
      and the panel's width is a multiple itself. */
  ghost predicate WidthFollowsRows(w: nat, h: nat, hsize: nat, vsize: nat)
    requires hsize > 0 && vsize > 0
  {
    var full := hsize * (h / vsize);
    full <= w || (hsize * AtLeastOne(full % WIDTH12 / hsize) > w && w % hsize == 0)
  }

  /** Mode 1 on any panel, with the source's own ratio: the best fit is shown
      exactly when all the rows fit beside each other, or the candidate does not
      fit and the panel's width is itself a multiple of the source's. */
  lemma VIntegerBestIff(w: nat, h: nat, hsize: nat, vsize: nat, arx: nat, ary: nat)
    requires Panel(w, h, hsize, vsize) && hsize <= w && ary > 0 && arx * vsize == ary * hsize
    ensures ScaleInt(w, h, 1, hsize, vsize, arx, ary) == BestPicture(w, h, hsize, vsize)
            <==> WidthFollowsRows(w, h, hsize, vsize)
  {
    var k, f2 := h / vsize, w / hsize;
    var full := hsize * k;
    var cut := M12(full);
    Rows(h, vsize);
    TargetBound(k, hsize, vsize, arx, ary);
    CandidateShape(hsize, cut);
    WidthPathShape(w, hsize, vsize, Some(cut));
    assert w == hsize * f2 + w % hsize;
    if full <= w {
      DivOfMul(hsize, k);
      MulStrict(hsize, k, f2 + 1);
    } else {
      MulStrict(hsize, f2, k);
      MulStrict(vsize, f2, k);
      RowsBelow(h, vsize, f2, k);
      hide ScaleInt;
      ModeOneShows(w, h, hsize, vsize, arx, ary, cut);
    }
  }

  lemma RowsBelow(h: nat, vsize: nat, f: nat, k: nat)
    requires 0 < vsize && vsize * k <= h < WIDTH12 && f <= k
    ensures M12(vsize * f) == vsize * f
  {
    MulMonotone(vsize, f, k);
  }

  /** Mode 1 shows the cut target over all rows, or the whole width over fewer. */
  lemma ModeOneShows(w: nat, h: nat, hsize: nat, vsize: nat, arx: nat, ary: nat, cut: nat)
    requires Panel(w, h, hsize, vsize) && hsize <= w && ary > 0 && arx * vsize == ary * hsize
    requires cut == M12(hsize * (h / vsize))
    ensures ScaleInt(w, h, 1, hsize, vsize, arx, ary)
         == if Candidate(hsize, cut) <= w then Size(cut, vsize * (h / vsize)) else Size(w, M12(vsize * (w / hsize)))
  {
    Rows(h, vsize);
    TargetBound(h / vsize, hsize, vsize, arx, ary);
    WidthPathShape(w, hsize, vsize, Some(cut));
  }

  /** Being a multiple of the source's width is not enough: on 1280x3840 the
      cut target is 1024 columns over 3840 rows, the best fit is 1280x960. */
  lemma VIntegerCutTarget()
    ensures ScaleInt(1280, 3840, 1, 640, 480, 4, 3) == Size(1024, 3840) != BestPicture(1280, 3840, 640, 480)
  {
  }

  // ---- any ratio ------------------------------------------------------------------------

  /** The ratio is passed through untouched exactly when no mode is chosen, when
      only its second part is zero, or when the panel is shorter than the source. */
  lemma PassThroughIff(w: nat, h: nat, scale: nat, hsize: nat, vsize: nat, arx: nat, ary: nat)
    requires 0 < hsize && 0 < vsize && h < WIDTH12
    ensures var r := ScaleInt(w, h, scale, hsize, vsize, arx, ary);
            && (r.Ratio? <==> scale == 0 || (ary == 0 && arx != 0) || h < vsize)
            && (r.Ratio? ==> r == Ratio(arx, ary))
  {
    if h >= vsize {
      Rows(h, vsize);
    } else {
      assert h / vsize == 0;
    }
  }

  /** A ratio of 0:0 asks for as many source widths as the panel holds, whatever
      its height: the best fit comes out exactly when the width is the tighter bound. */
  lemma ZeroRatio(w: nat, h: nat, scale: nat, hsize: nat, vsize: nat)
    requires Panel(w, h, hsize, vsize) && hsize <= w && 2 <= scale <= 4
    ensures ScaleInt(w, h, scale, hsize, vsize, 0, 0) == Size(hsize * (w / hsize), vsize * (w / hsize) % 4096)
    ensures ScaleInt(w, h, 1, hsize, vsize, 0, 0) == Size(w, vsize * (w / hsize) % 4096)
    ensures ScaleInt(w, h, scale, hsize, vsize, 0, 0) == BestPicture(w, h, hsize, vsize) <==> w / hsize <= h / vsize
  {
    Rows(h, vsize);
    WidthPathShape(w, hsize, vsize, None);
    var f := w / hsize;
    assert hsize * (f + 1) == hsize * f + hsize;
    MulStrict(hsize, Best(w, h, hsize, vsize), f);
    if f <= h / vsize { RowsBelow(h, vsize, f, h / vsize); }
  }

  /** The width the ratio asks for beside all the rows, as the hardware computes it. */
  function Target(h: nat, vsize: nat, arx: nat, ary: nat): nat
    requires vsize > 0 && ary > 0
  {
    vsize * (h / vsize) * arx / ary % 4096
  }

  lemma LayoutOf(w: nat, h: nat, hsize: nat, vsize: nat, arx: nat, ary: nat)
    requires Panel(w, h, hsize, vsize) && hsize <= w && ary > 0
    ensures var t, k := Target(h, vsize, arx, ary), h / vsize;
            var lo := hsize * AtLeastOne(t / hsize);
            Layout(w, k, hsize, vsize, arx, ary)
            == if lo <= w then Parts(lo, vsize * k, t, Some(t)) else WidthPath(w, hsize, vsize, Some(t))
  {
    Rows(h, vsize);
    CandidateShape(hsize, Target(h, vsize, arx, ary));
  }

  /** The largest multiple of the source's width not above the target. */
  lemma LargestBelow(t: nat, hsize: nat, g: nat)
    requires 0 < hsize <= t
    ensures var lo := hsize * AtLeastOne(t / hsize);
            lo <= t < lo + hsize && (hsize * g <= t <==> hsize * g <= lo) && (hsize * g > lo ==> hsize * g >= lo + hsize)
  {
    var f := t / hsize;
    DivBounds(t, hsize);
    assert f >= 1 by { assert hsize * (0 + 1) == hsize; }
    assert hsize * (f + 1) == hsize * f + hsize;
    MulStrict(hsize, f, g);
    MulStrict(hsize, g, f + 1);
  }

  function Distance(x: nat, y: nat): nat { if x <= y then y - x else x - y }

  /** What tells the three integer modes apart, for any ratio whose target is at
      least one source width and whose multiple fits the panel. Narrower shows the
      largest multiple not above the target; wider the smallest not below it that
      the panel holds, if any; the third the one closest to the target, the
      narrower of two equally close. All keep every row. */
  lemma ModesChoose(w: nat, h: nat, hsize: nat, vsize: nat, arx: nat, ary: nat, g: nat)
    requires Panel(w, h, hsize, vsize) && hsize <= w && ary > 0
    requires var t := Target(h, vsize, arx, ary); hsize <= t && hsize * AtLeastOne(t / hsize) <= w
    ensures var t, y := Target(h, vsize, arx, ary), vsize * (h / vsize);
            var n2 := ScaleInt(w, h, 2, hsize, vsize, arx, ary);
            var n3 := ScaleInt(w, h, 3, hsize, vsize, arx, ary);
            var n4 := ScaleInt(w, h, 4, hsize, vsize, arx, ary);
            && n2.Size? && n3.Size? && n4.Size? && n2.height == n3.height == n4.height == y
            && n2.width <= t && (hsize * g <= t ==> hsize * g <= n2.width)
            && (t <= hsize * g <= w ==> t <= n3.width <= hsize * g) && (n3.width < t ==> n3.width == n2.width)
            && n3.width <= w && n4.width <= w
            && (hsize * g <= w ==> Distance(n4.width, t) <= Distance(hsize * g, t))
            && (n4.width > t ==> t - n2.width > n4.width - t)
  {
    var t, k := Target(h, vsize, arx, ary), h / vsize;
    Rows(h, vsize);
    LayoutOf(w, h, hsize, vsize, arx, ary);
    LargestBelow(t, hsize, g);
    hide Layout, Target;
  }

  lemma NarrowLayout(w: nat, h: nat, hsize: nat, vsize: nat, arx: nat, ary: nat)
    requires Panel(w, h, hsize, vsize) && hsize <= w && ary > 0 && Target(h, vsize, arx, ary) < hsize
    ensures var t, k := Target(h, vsize, arx, ary), h / vsize; Layout(w, k, hsize, vsize, arx, ary) == Parts(hsize, vsize * k, t, Some(t))
  {
    BelowOneWidth(Target(h, vsize, arx, ary), hsize);
    hide Layout, Target, WidthPath, AtLeastOne;
    LayoutOf(w, h, hsize, vsize, arx, ary);
  }

  lemma BelowOneWidth(t: nat, hsize: nat)
    requires t < hsize
    ensures hsize * AtLeastOne(t / hsize) == hsize
  {
    assert t / hsize == 0;
    assert hsize * AtLeastOne(0) == hsize;
  }

  /** A target below one source width is shown as one width by the narrower and
      the closest mode; the wider one takes two widths where the panel holds them,
      although one is already wider than the target. */
  lemma NarrowTarget(w: nat, h: nat, hsize: nat, vsize: nat, arx: nat, ary: nat)
    requires Panel(w, h, hsize, vsize) && hsize <= w && ary > 0 && Target(h, vsize, arx, ary) < hsize
    ensures var y := vsize * (h / vsize);
            && ScaleInt(w, h, 2, hsize, vsize, arx, ary) == ScaleInt(w, h, 4, hsize, vsize, arx, ary) == Size(hsize, y)
            && ScaleInt(w, h, 3, hsize, vsize, arx, ary) == Size(if 2 * hsize <= w then 2 * hsize else hsize, y)
  {
    Rows(h, vsize);
    NarrowLayout(w, h, hsize, vsize, arx, ary);
    hide Layout, Target;
  }

  /** A target whose multiple is wider than the panel: the panel's width decides, in all three modes. */
  lemma WideTarget(w: nat, h: nat, scale: nat, hsize: nat, vsize: nat, arx: nat, ary: nat)
    requires Panel(w, h, hsize, vsize) && hsize <= w && ary > 0 && 2 <= scale <= 4
    requires hsize * AtLeastOne(Target(h, vsize, arx, ary) / hsize) > w
    ensures ScaleInt(w, h, scale, hsize, vsize, arx, ary) == Size(hsize * (w / hsize), vsize * (w / hsize) % 4096)
  {
    var t := Target(h, vsize, arx, ary);
    Rows(h, vsize);
    LayoutOf(w, h, hsize, vsize, arx, ary);
    WidthPathShape(w, hsize, vsize, Some(t));
    assert hsize * (w / hsize + 1) == hsize * (w / hsize) + hsize;
    hide Layout, Target, WidthPath;
  }
}
