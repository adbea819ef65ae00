/**
 * The "boring face" badge: an SVG picture whose colours, viewport and
 * optional border are filled into a fixed template, followed by a row of ten
 * level bars of which the first `rank` are drawn in the face colour.
 *
 * The template constants are written as their literal parts around their
 * `#name#` placeholders (see `Strings.Interleave`); their text is exactly the
 * text of the Rust constants.
 */
module BoringFaceModel {
  import opened Strings
  import opened SvgText

  /** A face style: its two colours and whether the badge frame is drawn. */
  datatype BoringFace = BoringFace(fillWhite: string, fillBlack: string, withBorder: bool)

  /** The literal parts of `SVG_HEADER`, around its eight placeholders. */
  const HeaderLits: seq<string> :=
    [HeaderLit0, HeaderLit1, HeaderLit2, HeaderLit3, HeaderLit4, HeaderLit5, HeaderLit6, HeaderLit7, HeaderLit8]

  const SvgViewport := Placeholder("svg_viewport")
  const FillBlack := Placeholder("fill_black")
  const FillWhite := Placeholder("fill_white")
  const SvgBorderSlot := Placeholder("svg_border")

  /** The placeholders of `SVG_HEADER`, in order. */
  const HeaderSlots: seq<string> :=
    [SvgViewport, FillBlack, FillBlack, FillWhite, FillWhite, FillWhite, FillBlack, SvgBorderSlot]

  /** `SVG_HEADER`. */
  function SvgHeader(): string {
    Interleave(HeaderLits, HeaderSlots)
  }

  /** The literal parts of `SVG_BORDER`, around its four placeholders. */
  const BorderLits: seq<string> := [BorderLit0, BorderLit1, BorderLit2, BorderLit3, BorderLit4]

  const SiteName := Placeholder("site_name")
  const SiteUv := Placeholder("site_uv")
  const SiteReferrer := Placeholder("site_referrer")
  const SiteRank := Placeholder("site_rank")

  /** `SVG_BORDER`. */
  function SvgBorder(): string {
    Interleave(BorderLits, [SiteName, SiteUv, SiteReferrer, SiteRank])
  }

  /** `SVG_FOOTER`. */
  const SvgFooter := FooterText

  /** The `viewBox` attribute put in place of `#svg_viewport#`. */
  function ViewBox(withBorder: bool): string {
    if withBorder then "viewBox=\"-3.412 -2.5 584.261 115.604\"" else "viewBox=\"6 6.1 98 97\""
  }

  function BarStyle(filled: bool): string {
    if filled then "class=\"fill-black\"" else "fill=\"#d55f6f\""
  }

  /**
   * Bar `i`: a 3x6 rectangle at x = 35.5 + 4i. Every such x has the fraction
   * .5, which Rust's float formatting prints as the integer part then ".5".
   */
  function Bar(i: nat, filled: bool): (r: string)
    ensures '_' !in r
  {
    var x := NatToString(35 + 4 * i);
    assert '_' !in x by {
      assert forall k :: 0 <= k < |x| ==> x[k] != '_';
    }
    var style := BarStyle(filled);
    assert '_' !in style;
    var tail := ".5\" y=\"72.5\" width=\"3\" " + "height=\"6\" rx=\"1\" />";
    assert '_' !in tail;
    "<rect " + style + " x=\"" + x + tail
  }

  /**
   * Which of the first `count` bars the loop fills for a level of `rank`:
   * bar `i` iff `i < rank`.
   */
  function BarFlags(count: nat, rank: int): (r: seq<bool>)
    ensures |r| == count
    decreases count
  {
    if count == 0 then [] else BarFlags(count - 1, rank) + [count - 1 < rank]
  }

  /** The bars for the given flags, bar `i` drawn filled iff `flags[i]`. */
  function BarsText(flags: seq<bool>): (r: string)
    ensures '_' !in r
    decreases |flags|
  {
    if |flags| == 0 then ""
    else BarsText(flags[..|flags| - 1]) + Bar(|flags| - 1, flags[|flags| - 1])
  }

  lemma AppendAssoc(a: string, b: string, c: string)
    ensures a + b + c == a + (b + c)
  {
  }

  lemma BarsTextSnoc(flags: seq<bool>, b: bool)
    ensures BarsText(flags + [b]) == BarsText(flags) + Bar(|flags|, b)
  {
    assert (flags + [b])[..|flags|] == flags;
  }

  lemma {:induction false} BarFlagsAt(count: nat, rank: int)
    ensures forall i :: 0 <= i < count ==> BarFlags(count, rank)[i] == (i < rank)
  {
    if count > 0 {
      BarFlagsAt(count - 1, rank);
    }
  }

  /** The number of filled bars. */
  function CountFilled(flags: seq<bool>): nat
    decreases |flags|
  {
    if |flags| == 0 then 0
    else CountFilled(flags[..|flags| - 1]) + (if flags[|flags| - 1] then 1 else 0)
  }

  function Min(a: int, b: int): int {
    if a <= b then a else b
  }

  lemma {:induction false} CountFilledPrefix(count: nat, rank: int)
    requires 0 <= rank
    ensures CountFilled(BarFlags(count, rank)) == Min(count, rank)
  {
    if count > 0 {
      CountFilledPrefix(count - 1, rank);
      assert BarFlags(count, rank)[..count - 1] == BarFlags(count - 1, rank);
    }
  }

  /** Bar `i` is filled iff `i < rank`, so of the ten bars exactly `rank` are filled. */
  lemma FilledBarCount(rank: int)
    requires 1 <= rank <= 10
    ensures forall i :: 0 <= i < 10 ==> BarFlags(10, rank)[i] == (i < rank)
    ensures CountFilled(BarFlags(10, rank)) == rank
  {
    CountFilledPrefix(10, rank);
    BarFlagsAt(10, rank);
  }

  /** A filled bar and a hollow one differ in their style attribute. */
  lemma FilledDiffersFromHollow(i: nat)
    ensures Bar(i, true) != Bar(i, false)
  {
    var t, f := Bar(i, true), Bar(i, false);
    assert t[6] == 'c' && f[6] == 'f';
  }

  /** `SVG_BORDER` with the site name and the three numbers substituted. */
  function FilledBorder(name: string, uv: int, rv: int, rank: int): string {
    Replace(Replace(Replace(Replace(SvgBorder(), SiteName, name),
      SiteUv, IntToString(uv)), SiteReferrer, IntToString(rv)), SiteRank, IntToString(rank))
  }

  /** `SVG_HEADER` with the face's two colours put in. */
  function FilledHeader(face: BoringFace): string {
    Replace(Replace(SvgHeader(), FillWhite, face.fillWhite), FillBlack, face.fillBlack)
  }

  /** What `render_svg` returns: its chain of replacements, step by step. */
  function RenderedSvg(face: BoringFace, name: string, uv: int, rv: int, rank: int): string
    requires 1 <= rank <= 10
  {
    var content := Replace(FilledHeader(face) + BarsText(BarFlags(10, rank)) + SvgFooter, SvgViewport, ViewBox(face.withBorder));
    if face.withBorder then Replace(content, SvgBorderSlot, FilledBorder(name, uv, rv, rank)) else content
  }

  /** `BoringFace::render_svg`; the Rust `assert!` on `rank` is its precondition. */
  method RenderSvg(face: BoringFace, name: string, uv: int, rv: int, rank: int) returns (content: string)
    requires 1 <= rank <= 10
    ensures content == RenderedSvg(face, name, uv, rv, rank)
  {
    content := FilledHeader(face);
    ghost var header := content;
    assert header + BarsText([]) == header;
    for i := 0 to 10
      invariant content == header + BarsText(BarFlags(i, rank))
    {
      BarsTextSnoc(BarFlags(i, rank), i < rank);
      var bar := Bar(i, i < rank);
      AppendAssoc(header, BarsText(BarFlags(i, rank)), bar);
      content := content + bar;
    }
    content := content + SvgFooter;
    assert content == FilledHeader(face) + BarsText(BarFlags(10, rank)) + SvgFooter;
    content := Replace(content, SvgViewport, ViewBox(face.withBorder));
    if face.withBorder {
      content := Replace(content, SvgBorderSlot, FilledBorder(name, uv, rv, rank));
    }
  }

  /** The header's literal parts are well formed, whatever `_`-free text follows the last one. */
  lemma HeaderLitsOk(tail: string)
    requires '_' !in tail
    ensures LiteralsOk(HeaderLits[..8] + [HeaderLits[8] + tail])
  {
    HeaderLit0Plain(); HeaderLit1Plain(); HeaderLit2Plain();
    HeaderLit3Plain(); HeaderLit4Plain(); HeaderLit5Plain();
    HeaderLit6Plain(); HeaderLit7Plain(); HeaderLit8Plain();
    var lits := HeaderLits[..8] + [HeaderLits[8] + tail];
    forall i | 0 <= i < 9
      ensures '_' !in lits[i] && (i < 8 ==> '#' !in lits[i] && (1 <= i ==> |lits[i]| >= 5))
    {
      PlainHasNeither(HeaderLits[i]);
      if i < 8 {
        assert lits[i] == HeaderLits[i];
      }
    }
  }

  lemma BorderLitsOk()
    ensures LiteralsOk(BorderLits)
  {
    BorderLit0Plain(); BorderLit1Plain(); BorderLit2Plain(); BorderLit3Plain(); BorderLit4Plain();
    forall i | 0 <= i < 5
      ensures '_' !in BorderLits[i] && '#' !in BorderLits[i]
    {
      PlainHasNeither(BorderLits[i]);
    }
  }

  lemma PlaceholderNames()
    ensures IsPlaceholderName("svg_viewport") && IsPlaceholderName("svg_border")
    ensures IsPlaceholderName("fill_black") && IsPlaceholderName("fill_white")
    ensures IsPlaceholderName("site_name") && IsPlaceholderName("site_uv")
    ensures IsPlaceholderName("site_referrer") && IsPlaceholderName("site_rank")
  {
    assert "svg_viewport"[3] == '_' && "svg_border"[3] == '_';
    assert "fill_black"[4] == '_' && "fill_white"[4] == '_';
    assert "site_name"[4] == '_' && "site_uv"[4] == '_';
    assert "site_referrer"[4] == '_' && "site_rank"[4] == '_';
  }

  /**
   * The border text: the site name, the visitor count, the referrer count and
   * the level, in that order, each in its place in `SVG_BORDER`.
   */
  lemma FilledBorderLayout(name: string, uv: int, rv: int, rank: int)
    requires '_' !in name
    ensures FilledBorder(name, uv, rv, rank)
         == Interleave(BorderLits, [name, IntToString(uv), IntToString(rv), IntToString(rank)])
  {
    PlaceholderNames();
    BorderLitsOk();
    FillFourSlots(BorderLits, "site_name", "site_uv", "site_referrer", "site_rank",
      name, IntToString(uv), IntToString(rv), IntToString(rank));
  }

  /** The four header placeholders are pairwise different. */
  lemma HeaderPlaceholderTexts()
    ensures IsPlaceholderText(SvgViewport) && IsPlaceholderText(FillBlack)
    ensures IsPlaceholderText(FillWhite) && IsPlaceholderText(SvgBorderSlot)
    ensures '_' in SvgViewport && '_' in FillBlack && '_' in FillWhite && '_' in SvgBorderSlot
  {
    PlaceholderNames();
    PlaceholderFacts("svg_viewport"); PlaceholderFacts("fill_black");
    PlaceholderFacts("fill_white"); PlaceholderFacts("svg_border");
  }

  lemma HeaderNamesDistinct()
    ensures "svg_viewport" != "fill_black" && "svg_viewport" != "fill_white" && "svg_viewport" != "svg_border"
    ensures "fill_black" != "fill_white" && "fill_black" != "svg_border" && "fill_white" != "svg_border"
  {
    assert "svg_viewport"[4] != "svg_border"[4];
    assert "fill_black"[5] != "fill_white"[5];
    assert "svg_viewport"[0] != "fill_black"[0] && "svg_viewport"[0] != "fill_white"[0];
    assert "svg_border"[0] != "fill_black"[0] && "svg_border"[0] != "fill_white"[0];
  }

  lemma HeaderPlaceholdersDistinct()
    ensures SvgViewport != FillBlack && SvgViewport != FillWhite && SvgViewport != SvgBorderSlot
    ensures FillBlack != FillWhite && FillBlack != SvgBorderSlot && FillWhite != SvgBorderSlot
  {
    HeaderNamesDistinct();
    PlaceholdersDiffer("svg_viewport", "fill_black");
    PlaceholdersDiffer("svg_viewport", "fill_white");
    PlaceholdersDiffer("svg_viewport", "svg_border");
    PlaceholdersDiffer("fill_black", "fill_white");
    PlaceholdersDiffer("fill_black", "svg_border");
    PlaceholdersDiffer("fill_white", "svg_border");
  }

  /** Filling the two colour placeholders of any template shaped like `SVG_HEADER`. */
  lemma FillColours(lits: seq<string>, p0: string, p7: string, nb: string, nw: string, w: string, b: string)
    requires |lits| == 9 && LiteralsOk(lits)
    requires IsPlaceholderName(nb) && IsPlaceholderName(nw)
    requires IsPlaceholderText(p0) && IsPlaceholderText(p7) && '_' in p0 && '_' in p7
    requires p0 != Placeholder(nb) && p0 != Placeholder(nw) && p7 != Placeholder(nb) && p7 != Placeholder(nw)
    requires Placeholder(nb) != Placeholder(nw)
    requires '_' !in w && '_' !in b
    ensures var pb, pw := Placeholder(nb), Placeholder(nw);
      Replace(Replace(Interleave(lits, [p0, pb, pb, pw, pw, pw, pb, p7]), pw, w), pb, b)
        == Interleave(lits, [p0, b, b, w, w, w, b, p7])
  {
    var pb, pw := Placeholder(nb), Placeholder(nw);
    PlaceholderFacts(nb); PlaceholderFacts(nw);
    FillWhiteStep(lits, p0, p7, pb, nw, w);
    FillBlackStep(lits, p0, p7, nb, w, b);
  }

  lemma FillWhiteStep(lits: seq<string>, p0: string, p7: string, pb: string, nw: string, w: string)
    requires |lits| == 9 && LiteralsOk(lits) && IsPlaceholderName(nw)
    requires IsPlaceholderText(p0) && IsPlaceholderText(p7) && IsPlaceholderText(pb)
    requires IsPlaceholderText(Placeholder(nw))
    requires p0 != Placeholder(nw) && p7 != Placeholder(nw) && pb != Placeholder(nw) && '_' !in w
    ensures var pw := Placeholder(nw);
      Replace(Interleave(lits, [p0, pb, pb, pw, pw, pw, pb, p7]), pw, w)
        == Interleave(lits, [p0, pb, pb, w, w, w, pb, p7])
  {
    var pw := Placeholder(nw);
    var s0 := [p0, pb, pb, pw, pw, pw, pb, p7];
    ReplaceFillsSlots(lits, s0, nw, w);
    assert Substituted(s0, pw, w) == [p0, pb, pb, w, w, w, pb, p7];
  }

  lemma FillBlackStep(lits: seq<string>, p0: string, p7: string, nb: string, w: string, b: string)
    requires |lits| == 9 && LiteralsOk(lits) && IsPlaceholderName(nb)
    requires IsPlaceholderText(p0) && IsPlaceholderText(p7) && '_' in Placeholder(nb)
    requires p0 != Placeholder(nb) && p7 != Placeholder(nb) && '_' !in w
    ensures var pb := Placeholder(nb);
      Replace(Interleave(lits, [p0, pb, pb, w, w, w, pb, p7]), pb, b)
        == Interleave(lits, [p0, b, b, w, w, w, b, p7])
  {
    var pb := Placeholder(nb);
    var s1 := [p0, pb, pb, w, w, w, pb, p7];
    PlaceholderFacts(nb);
    ReplaceFillsSlots(lits, s1, nb, b);
    assert Substituted(s1, pb, b) == [p0, b, b, w, w, w, b, p7];
  }

  lemma HeaderLitsWellFormed()
    ensures LiteralsOk(HeaderLits)
  {
    HeaderLitsOk("");
    var l8 := HeaderLits[8];
    assert l8 + "" == l8;
    assert HeaderLits[..8] + [l8 + ""] == HeaderLits;
  }

  /** The header with its colours filled: white in slots 3 to 5, black in slots 1, 2 and 6. */
  lemma FilledHeaderLayout(face: BoringFace)
    requires '_' !in face.fillWhite && '_' !in face.fillBlack
    ensures FilledHeader(face) == Interleave(HeaderLits,
      [SvgViewport, face.fillBlack, face.fillBlack, face.fillWhite,
       face.fillWhite, face.fillWhite, face.fillBlack, SvgBorderSlot])
  {
    HeaderLitsWellFormed();
    PlaceholderNames();
    HeaderPlaceholderTexts();
    HeaderPlaceholdersDistinct();
    FillColours(HeaderLits, SvgViewport, SvgBorderSlot, "fill_black", "fill_white", face.fillWhite, face.fillBlack);
  }

  /** What follows the header in the page: the ten bars, then `SVG_FOOTER`. */
  function PageTail(rank: int): (t: string)
    ensures '_' !in t
  {
    FooterTextPlain();
    PlainHasNeither(FooterText);
    var bars := BarsText(BarFlags(10, rank));
    assert forall k :: 0 <= k < |bars + SvgFooter| ==> (bars + SvgFooter)[k] != '_' by {
      assert forall k :: 0 <= k < |bars| ==> bars[k] != '_';
    }
    bars + SvgFooter
  }

  /** The literal parts of the page once the bars and the footer follow the header. */
  function PageLits(rank: int): seq<string> {
    HeaderLits[..8] + [HeaderLits[8] + PageTail(rank)]
  }

  /** The page before the viewport is filled: the coloured header, then bars and footer. */
  lemma ColouredPageLayout(face: BoringFace, rank: int)
    requires '_' !in face.fillWhite && '_' !in face.fillBlack
    ensures var w, b := face.fillWhite, face.fillBlack;
      FilledHeader(face) + BarsText(BarFlags(10, rank)) + SvgFooter
        == Interleave(PageLits(rank), [SvgViewport, b, b, w, w, w, b, SvgBorderSlot])
  {
    var w, b := face.fillWhite, face.fillBlack;
    var slots := [SvgViewport, b, b, w, w, w, b, SvgBorderSlot];
    FilledHeaderLayout(face);
    AppendAssoc(FilledHeader(face), BarsText(BarFlags(10, rank)), SvgFooter);
    InterleaveAppend(HeaderLits, slots, PageTail(rank));
  }

  /** Filling the first slot of a template shaped like the page, when it holds its own placeholder. */
  lemma FillFirstOfEight(lits: seq<string>, n0: string, n7: string, vb: string, w: string, b: string)
    requires |lits| == 9 && LiteralsOk(lits)
    requires IsPlaceholderName(n0) && IsPlaceholderName(n7) && n0 != n7
    requires '_' !in vb && '_' !in w && '_' !in b
    ensures var p0, p7 := Placeholder(n0), Placeholder(n7);
      Replace(Interleave(lits, [p0, b, b, w, w, w, b, p7]), p0, vb)
        == Interleave(lits, [vb, b, b, w, w, w, b, p7])
  {
    var p0, p7 := Placeholder(n0), Placeholder(n7);
    PlaceholderFacts(n0); PlaceholderFacts(n7);
    PlaceholdersDiffer(n0, n7);
    var slots := [p0, b, b, w, w, w, b, p7];
    assert w != p0 && b != p0 && p7 != p0;
    assert ValuesOk(slots);
    assert forall j :: 1 <= j < 8 ==> slots[j] != p0;
    FillSlotAt(lits, slots, 0, n0, vb);
    SlotsUpdated(p0, vb, w, b, p7, p7);
  }

  lemma SlotsUpdated(first: string, first': string, w: string, b: string, last: string, last': string)
    ensures [first, b, b, w, w, w, b, last][0 := first'] == [first', b, b, w, w, w, b, last]
    ensures [first, b, b, w, w, w, b, last][7 := last'] == [first, b, b, w, w, w, b, last']
  {
  }

  /** Filling the last slot of a template shaped like the page, when it holds its own placeholder. */
  lemma FillLastOfEight(lits: seq<string>, n7: string, vb: string, w: string, b: string, border: string)
    requires |lits| == 9 && LiteralsOk(lits) && IsPlaceholderName(n7)
    requires '_' !in vb && '_' !in w && '_' !in b
    ensures var p7 := Placeholder(n7);
      Replace(Interleave(lits, [vb, b, b, w, w, w, b, p7]), p7, border)
        == Interleave(lits, [vb, b, b, w, w, w, b, border])
  {
    var p7 := Placeholder(n7);
    PlaceholderFacts(n7);
    var slots := [vb, b, b, w, w, w, b, p7];
    FillSlotAt(lits, slots, 7, n7, border);
    SlotsUpdated(vb, vb, w, b, p7, border);
  }

  /**
   * The whole badge: the viewport first, the face's colours in the six colour
   * slots, the ten bars and the footer after the header's last part, and in
   * the last slot the filled border, or for a face without border the
   * `#svg_border#` placeholder itself, which `render_svg` leaves in the text.
   */
  lemma RenderedSvgLayout(face: BoringFace, name: string, uv: int, rv: int, rank: int)
    requires 1 <= rank <= 10
    requires '_' !in face.fillWhite && '_' !in face.fillBlack
    ensures var w, b := face.fillWhite, face.fillBlack;
      RenderedSvg(face, name, uv, rv, rank)
        == Interleave(PageLits(rank), [ViewBox(face.withBorder), b, b, w, w, w, b,
             if face.withBorder then FilledBorder(name, uv, rv, rank) else SvgBorderSlot])
  {
    var w, b := face.fillWhite, face.fillBlack;
    var vb := ViewBox(face.withBorder);
    ViewportLayout(face, rank);
    if face.withBorder {
      HeaderLitsOk(PageTail(rank));
      PlaceholderNames();
      FillLastOfEight(PageLits(rank), "svg_border", vb, w, b, FilledBorder(name, uv, rv, rank));
    }
  }

  /** The page once `#svg_viewport#` is filled. */
  lemma ViewportLayout(face: BoringFace, rank: int)
    requires '_' !in face.fillWhite && '_' !in face.fillBlack
    ensures var w, b := face.fillWhite, face.fillBlack;
      Replace(FilledHeader(face) + BarsText(BarFlags(10, rank)) + SvgFooter, SvgViewport, ViewBox(face.withBorder))
        == Interleave(PageLits(rank), [ViewBox(face.withBorder), b, b, w, w, w, b, SvgBorderSlot])
      && '_' !in ViewBox(face.withBorder)
  {
    var w, b := face.fillWhite, face.fillBlack;
    var vb := ViewBox(face.withBorder);
    assert '_' !in vb;
    ColouredPageLayout(face, rank);
    HeaderLitsOk(PageTail(rank));
    PlaceholderNames();
    HeaderNamesDistinct();
    FillFirstOfEight(PageLits(rank), "svg_viewport", "svg_border", vb, w, b);
  }
}
