/** Frontend theming primitives: switcheroo classes on HTML elements, resolving a fill to
    an SVG `fill`/`opacity` pair (appending gradient and image patterns to `<defs>`), and
    the icon loader with its per-name promise cache and `data-rio-icon` race guard. */
module DesignApplication {
  import opened Wrappers
  import opened Strings
  import opened Sets

  /** An RGBA colour with channels in [0, 1]. */
  datatype Color = Rgba(red: real, green: real, blue: real, alpha: real)

  /** A `<stop>` of a linear gradient; the colour channels are already scaled by 255. */
  datatype StopNode = StopNode(id: string, offset: real, red: real, green: real, blue: real, alpha: real)

  /** The `<image>` inside an image-fill pattern. */
  datatype ImageNode = ImageNode(href: string, width: string, height: string, preserveAspectRatio: string)

  /** A child of `<defs>`. */
  datatype DefNode =
    | LinearGradientNode(id: string, angleDegrees: real, stops: seq<StopNode>)
    | PatternNode(id: string, width: string, height: string, images: seq<ImageNode>)

  /** An HTML or SVG element: its class list, inline style, attributes, inner HTML, the
      fill of the `<svg>` inside its content, and its `<defs>` child (if any). */
  class Element {
    var classes: set<string>
    var style: map<string, string>
    var attributes: map<string, string>
    var innerHtml: string
    var innerSvgFill: Option<string>
    var defs: Option<seq<DefNode>>

    constructor ()
      ensures classes == {} && style == map[] && attributes == map[]
      ensures innerHtml == "" && innerSvgFill == None && defs == None
    {
      classes := {};
      style := map[];
      attributes := map[];
      innerHtml := "";
      innerSvgFill := None;
      defs := None;
    }
  }

  // ---------------------------------------------------------------------------
  // Switcheroos

  function SwitcherooClass(name: string): string {
    "rio-switcheroo-" + name
  }

  /** The eleven switcheroo classes `removeSwitcheroos` takes off. */
  const SwitcherooClasses: set<string> := {
    SwitcherooClass("background"), SwitcherooClass("neutral"), SwitcherooClass("hud"),
    SwitcherooClass("primary"), SwitcherooClass("secondary"), SwitcherooClass("success"),
    SwitcherooClass("warning"), SwitcherooClass("danger"), SwitcherooClass("disabled"),
    SwitcherooClass("custom"), SwitcherooClass("bump")}

  /** The colour set passed to `applySwitcheroo`: a well-known name (including "keep" and
      "bump") or a custom colour set. */
  datatype ColorSet =
    | Named(name: string)
    | Custom(localBg: Color, localBgVariant: Color, localBgActive: Color, localFg: Color)

  /** The class `applySwitcheroo` adds for a colour set, if any. */
  function AddedSwitcheroo(colorSet: ColorSet): set<string> {
    match colorSet
    case Named(name) => if name == "keep" then {} else {SwitcherooClass(name)}
    case Custom(_, _, _, _) => {SwitcherooClass("custom")}
  }

  /** The class list after `applySwitcheroo`. */
  function SwitcherooClassesAfter(classes: set<string>, colorSet: ColorSet): set<string> {
    (classes - SwitcherooClasses) + AddedSwitcheroo(colorSet)
  }

  /** The inline style after `applySwitcheroo`: only a custom set writes the four
      `--rio-custom-*` properties, and nothing clears them. */
  function SwitcherooStyleAfter(style: map<string, string>, colorSet: ColorSet, css: Color -> string): map<string, string> {
    match colorSet
    case Named(_) => style
    case Custom(bg, bgVariant, bgActive, fg) =>
      style["--rio-custom-local-bg" := css(bg)]
           ["--rio-custom-local-bg-variant" := css(bgVariant)]
           ["--rio-custom-local-bg-active" := css(bgActive)]
           ["--rio-custom-local-fg" := css(fg)]
  }

  /** `removeSwitcheroos` */
  method RemoveSwitcheroos(element: Element)
    modifies element
    ensures element.classes == old(element.classes) - SwitcherooClasses
    ensures element.style == old(element.style) && element.attributes == old(element.attributes)
    ensures element.innerHtml == old(element.innerHtml) && element.innerSvgFill == old(element.innerSvgFill)
    ensures element.defs == old(element.defs)
  {
    element.classes := element.classes - SwitcherooClasses;
  }

  /** `applySwitcheroo`; `css` stands for `colorToCssString`. */
  method ApplySwitcheroo(element: Element, colorSet: ColorSet, css: Color -> string)
    modifies element
    ensures element.classes == SwitcherooClassesAfter(old(element.classes), colorSet)
    ensures element.style == SwitcherooStyleAfter(old(element.style), colorSet, css)
    ensures element.attributes == old(element.attributes)
    ensures element.innerHtml == old(element.innerHtml) && element.innerSvgFill == old(element.innerSvgFill)
    ensures element.defs == old(element.defs)
  {
    RemoveSwitcheroos(element);
    if colorSet == Named("keep") {
      return;
    }
    match colorSet {
      case Named(name) =>
        element.classes := element.classes + {SwitcherooClass(name)};
      case Custom(bg, bgVariant, bgActive, fg) =>
        element.style := element.style["--rio-custom-local-bg" := css(bg)];
        element.style := element.style["--rio-custom-local-bg-variant" := css(bgVariant)];
        element.style := element.style["--rio-custom-local-bg-active" := css(bgActive)];
        element.style := element.style["--rio-custom-local-fg" := css(fg)];
        element.classes := element.classes + {SwitcherooClass("custom")};
    }
  }

  /** After `applySwitcheroo` at most one switcheroo class is present, and it is the one
      just added; every class that is neither listed nor added is left as it was. */
  lemma AtMostOneSwitcheroo(classes: set<string>, colorSet: ColorSet)
    ensures var after := SwitcherooClassesAfter(classes, colorSet);
            && |after * SwitcherooClasses| <= 1
            && after * SwitcherooClasses <= AddedSwitcheroo(colorSet)
            && forall c :: c !in SwitcherooClasses && c !in AddedSwitcheroo(colorSet) ==> (c in after <==> c in classes)
  {
    var after := SwitcherooClassesAfter(classes, colorSet);
    assert after * SwitcherooClasses <= AddedSwitcheroo(colorSet);
    assert |AddedSwitcheroo(colorSet)| <= 1;
    SubsetCardinality(after * SwitcherooClasses, AddedSwitcheroo(colorSet));
  }

  /** "keep" leaves no switcheroo class; a name adds exactly `rio-switcheroo-<name>`; a
      custom set adds `rio-switcheroo-custom`. */
  lemma SwitcherooAdds(classes: set<string>, name: string, cs: ColorSet)
    requires cs.Custom?
    ensures SwitcherooClassesAfter(classes, Named("keep")) * SwitcherooClasses == {}
    ensures name != "keep" ==>
              && SwitcherooClass(name) in SwitcherooClassesAfter(classes, Named(name))
              && SwitcherooClassesAfter(classes, Named(name)) - (classes - SwitcherooClasses) <= {SwitcherooClass(name)}
    ensures SwitcherooClassesAfter(classes, cs) - (classes - SwitcherooClasses) == {SwitcherooClass("custom")}
  {
    assert SwitcherooClass("custom") in SwitcherooClasses;
  }

  /** Two calls leave the class list of the second call alone, provided the first added
      one of the listed classes (as every colour set the type allows does). */
  lemma SecondSwitcherooWins(classes: set<string>, first: ColorSet, second: ColorSet)
    requires AddedSwitcheroo(first) <= SwitcherooClasses
    ensures SwitcherooClassesAfter(SwitcherooClassesAfter(classes, first), second)
            == SwitcherooClassesAfter(classes, second)
  {
  }

  /** Only the custom case writes the `--rio-custom-*` properties, and a later named set
      leaves them in place. */
  lemma CustomVariablesPersist(style: map<string, string>, custom: ColorSet, later: ColorSet, css: Color -> string)
    requires custom.Custom? && later.Named?
    ensures var s := SwitcherooStyleAfter(style, custom, css);
            && s["--rio-custom-local-bg"] == css(custom.localBg)
            && s["--rio-custom-local-bg-variant"] == css(custom.localBgVariant)
            && s["--rio-custom-local-bg-active"] == css(custom.localBgActive)
            && s["--rio-custom-local-fg"] == css(custom.localFg)
            && SwitcherooStyleAfter(s, later, css) == s
    ensures SwitcherooStyleAfter(style, later, css) == style
  {
  }

  // ---------------------------------------------------------------------------
  // Fills

  datatype FillMode = Fit | Stretch | Zoom

  /** A fill object, tagged by its `type`; any other tag is `OtherFill`. */
  datatype Fill =
    | SolidFill(color: Color)
    | LinearGradientFill(angleDegrees: real, stops: seq<(Color, real)>)
    | ImageFill(imageUrl: string, fillMode: FillMode)
    | OtherFill(tag: string)

  /** What `applyFillToSVG` accepts: a name ("keep", "dim" or a palette), a bare colour,
      a colour-set record (which has a `localBg`), or a fill object. */
  datatype FillLike =
    | FillName(name: string)
    | BareColor(color: Color)
    | ColorSetRecord(localBg: Color)
    | FillObject(fill: Fill)

  datatype FillError = InvalidFillType(tag: string)

  /** `preserveAspectRatio` for an image fill mode. */
  function AspectRatio(mode: FillMode): string {
    match mode
    case Stretch => "none"
    case Fit => "xMidYMid meet"
    case Zoom => "xMidYMid slice"
  }

  function UrlOf(id: string): string {
    "url(#" + id + ")"
  }

  /** The `<stop>` element for stop number `i` of a gradient. */
  function StopOf(gradientId: string, i: nat, stop: (Color, real)): StopNode {
    var (c, offset) := stop;
    StopNode(gradientId + "-stop-" + NatToString(i), offset, c.red * 255.0, c.green * 255.0, c.blue * 255.0, c.alpha)
  }

  /** The stops of a gradient with id `gradientId`, one per input pair, in order. */
  function GradientStops(gradientId: string, stops: seq<(Color, real)>): seq<StopNode> {
    if stops == [] then []
    else
      var n := |stops| - 1;
      GradientStops(gradientId, stops[..n]) + [StopOf(gradientId, n, stops[n])]
  }

  function GradientOf(gradientId: string, angleDegrees: real, stops: seq<(Color, real)>): DefNode {
    LinearGradientNode(gradientId, angleDegrees, GradientStops(gradientId, stops))
  }

  function PatternOf(patternId: string, imageUrl: string, mode: FillMode): DefNode {
    PatternNode(patternId, "100%", "100%", [ImageNode(imageUrl, "100%", "100%", AspectRatio(mode))])
  }

  /** The stops of a gradient: one per pair, in order, numbered from 0, with the colour
      channels scaled by 255 and the alpha taken as is. */
  lemma {:induction false} GradientStopsInOrder(gradientId: string, stops: seq<(Color, real)>)
    ensures var s := GradientStops(gradientId, stops);
            && |s| == |stops|
            && forall i :: 0 <= i < |stops| ==>
                 s[i] == StopNode(gradientId + "-stop-" + NatToString(i), stops[i].1,
                                  stops[i].0.red * 255.0, stops[i].0.green * 255.0, stops[i].0.blue * 255.0, stops[i].0.alpha)
  {
    if stops != [] {
      var n := |stops| - 1;
      GradientStopsInOrder(gradientId, stops[..n]);
      var s := GradientStops(gradientId, stops);
      assert s == GradientStops(gradientId, stops[..n]) + [StopOf(gradientId, n, stops[n])];
      forall i | 0 <= i < |stops|
        ensures s[i] == StopOf(gradientId, i, stops[i])
      {
        if i < n {
          assert stops[..n][i] == stops[i];
        }
      }
    }
  }

  /** The stop ids within one gradient are distinct. */
  lemma StopIdsDistinct(gradientId: string, i: nat, j: nat)
    requires i != j
    ensures gradientId + "-stop-" + NatToString(i) != gradientId + "-stop-" + NatToString(j)
  {
    var p := gradientId + "-stop-";
    if p + NatToString(i) == p + NatToString(j) {
      assert NatToString(i) == (p + NatToString(i))[|p|..];
      assert NatToString(j) == (p + NatToString(j))[|p|..];
      NatToStringRoundTrip(i);
      NatToStringRoundTrip(j);
    }
  }

  /** The `fill` and `opacity` `applyFillToSVG` writes, and the `<defs>` child it adds, or
      the error for an unknown fill tag. `gradientId`/`patternId` stand for the fresh id
      `generateUniqueId` would produce. */
  function ResolveFill(fillLike: FillLike, css: Color -> string, freshId: string): Result<(string, string, Option<DefNode>), FillError> {
    match fillLike
    case FillName(name) =>
      if name == "keep" then Success(("var(--rio-local-text-color)", "1", None))
      else if name == "dim" then Success(("var(--rio-local-text-color)", "0.4", None))
      else Success(("var(--rio-global-" + name + "-bg)", "1", None))
    case BareColor(c) => Success((css(c), "1", None))
    case ColorSetRecord(bg) => Success((css(bg), "1", None))
    case FillObject(fill) =>
      match fill
      case SolidFill(c) => Success((css(c), "1", None))
      case LinearGradientFill(angle, stops) => Success((UrlOf(freshId), "1", Some(GradientOf(freshId, angle, stops))))
      case ImageFill(url, mode) => Success((UrlOf(freshId), "1", Some(PatternOf(freshId, url, mode))))
      case OtherFill(tag) => Failure(InvalidFillType(tag))
  }

  /** "keep" and "dim" both use the local text colour; the opacity is 0.4 only for "dim"
      and 1 in every other successful case; only an unknown tag fails. */
  lemma FillOpacity(fillLike: FillLike, css: Color -> string, freshId: string)
    ensures var r := ResolveFill(fillLike, css, freshId);
            && (r.Failure? <==> fillLike.FillObject? && fillLike.fill.OtherFill?)
            && (fillLike == FillName("keep") || fillLike == FillName("dim") ==> r.Success? && r.value.0 == "var(--rio-local-text-color)")
            && (r.Success? ==> (r.value.1 == "0.4" <==> fillLike == FillName("dim")))
            && (r.Success? ==> r.value.1 == "0.4" || r.value.1 == "1")
  {
  }

  /** A palette name resolves to its global background variable; a bare colour and a
      colour set resolve through the colour conversion; gradient and image fills point at
      the new `<defs>` child, which carries the fresh id; no other case adds a child. */
  lemma FillValues(fillLike: FillLike, css: Color -> string, freshId: string)
    ensures var r := ResolveFill(fillLike, css, freshId);
            && (fillLike.FillName? && fillLike.name != "keep" && fillLike.name != "dim" ==>
                  r == Success(("var(--rio-global-" + fillLike.name + "-bg)", "1", None)))
            && (fillLike.BareColor? ==> r == Success((css(fillLike.color), "1", None)))
            && (fillLike.ColorSetRecord? ==> r == Success((css(fillLike.localBg), "1", None)))
            && (r.Success? && r.value.2.Some? ==> r.value.0 == UrlOf(freshId) && r.value.2.value.id == freshId)
            && (r.Success? && r.value.2.Some? <==>
                  fillLike.FillObject? && (fillLike.fill.LinearGradientFill? || fillLike.fill.ImageFill?))
  {
  }

  /** An image pattern holds exactly one image, whose aspect ratio follows the fill mode. */
  lemma PatternHoldsOneImage(patternId: string, imageUrl: string, mode: FillMode)
    ensures var p := PatternOf(patternId, imageUrl, mode);
            && |p.images| == 1
            && p.images[0].href == imageUrl
            && p.images[0].preserveAspectRatio == (if mode == Stretch then "none" else if mode == Fit then "xMidYMid meet" else "xMidYMid slice")
  {
  }

  /** `defs` after appending a child, creating `<defs>` when there is none. */
  function DefsWith(defs: Option<seq<DefNode>>, node: DefNode): Option<seq<DefNode>> {
    match defs
    case None => Some([node])
    case Some(children) => Some(children + [node])
  }

  /** `createLinearGradient`: one stop per pair, numbered by the counter `ii`. */
  method CreateLinearGradient(gradientId: string, angleDegrees: real, stops: seq<(Color, real)>) returns (gradient: DefNode)
    ensures gradient == GradientOf(gradientId, angleDegrees, stops)
  {
    var children: seq<StopNode> := [];
    var ii: int := -1;
    for k := 0 to |stops|
      invariant ii == k - 1
      invariant children == GradientStops(gradientId, stops[..k])
    {
      ii := ii + 1;
      var (c, offset) := stops[k];
      var stop := StopNode(gradientId + "-stop-" + NatToString(ii), offset,
                           c.red * 255.0, c.green * 255.0, c.blue * 255.0, c.alpha);
      assert stops[..k + 1][..k] == stops[..k];
      children := children + [stop];
    }
    assert stops[..|stops|] == stops;
    gradient := LinearGradientNode(gradientId, angleDegrees, children);
  }

  /** Appends `node` to the `<defs>` child of `svgRoot`, creating it when absent. */
  method AppendToDefs(svgRoot: Element, node: DefNode)
    modifies svgRoot
    ensures svgRoot.defs == DefsWith(old(svgRoot.defs), node)
    ensures svgRoot.classes == old(svgRoot.classes) && svgRoot.style == old(svgRoot.style)
    ensures svgRoot.attributes == old(svgRoot.attributes)
    ensures svgRoot.innerHtml == old(svgRoot.innerHtml) && svgRoot.innerSvgFill == old(svgRoot.innerSvgFill)
  {
    match svgRoot.defs {
      case None =>
        svgRoot.defs := Some([node]);
      case Some(children) =>
        svgRoot.defs := Some(children + [node]);
    }
  }

  /** `createLinearGradientFillAndReturnFill` */
  method CreateLinearGradientFill(svgRoot: Element, angleDegrees: real, stops: seq<(Color, real)>, gradientId: string)
    returns (fill: string)
    modifies svgRoot
    ensures fill == UrlOf(gradientId)
    ensures svgRoot.defs == DefsWith(old(svgRoot.defs), GradientOf(gradientId, angleDegrees, stops))
    ensures svgRoot.classes == old(svgRoot.classes) && svgRoot.style == old(svgRoot.style)
    ensures svgRoot.attributes == old(svgRoot.attributes)
    ensures svgRoot.innerHtml == old(svgRoot.innerHtml) && svgRoot.innerSvgFill == old(svgRoot.innerSvgFill)
  {
    var gradient := CreateLinearGradient(gradientId, angleDegrees, stops);
    AppendToDefs(svgRoot, gradient);
    fill := UrlOf(gradientId);
  }

  /** `createImageFillAndReturnFill` */
  method CreateImageFill(svgRoot: Element, imageUrl: string, mode: FillMode, patternId: string)
    returns (fill: string)
    modifies svgRoot
    ensures fill == UrlOf(patternId)
    ensures svgRoot.defs == DefsWith(old(svgRoot.defs), PatternOf(patternId, imageUrl, mode))
    ensures svgRoot.classes == old(svgRoot.classes) && svgRoot.style == old(svgRoot.style)
    ensures svgRoot.attributes == old(svgRoot.attributes)
    ensures svgRoot.innerHtml == old(svgRoot.innerHtml) && svgRoot.innerSvgFill == old(svgRoot.innerSvgFill)
  {
    var aspectRatio := match mode
      case Stretch => "none"
      case Fit => "xMidYMid meet"
      case Zoom => "xMidYMid slice";
    var image := ImageNode(imageUrl, "100%", "100%", aspectRatio);
    var pattern := PatternNode(patternId, "100%", "100%", [image]);
    AppendToDefs(svgRoot, pattern);
    fill := UrlOf(patternId);
  }

  /** `applyFillToSVG`: on success the style's `fill` and `opacity` are overwritten and a
      gradient or pattern is appended to `<defs>`; an unknown tag throws before anything
      is written. */
  method ApplyFillToSvg(svgRoot: Element, fillLike: FillLike, css: Color -> string, freshId: string)
    returns (r: Result<(), FillError>)
    modifies svgRoot
    ensures var res := ResolveFill(fillLike, css, freshId);
            && (r.Failure? <==> res.Failure?)
            && (res.Failure? ==> r.error == res.error)
            && (res.Success? ==>
                  && svgRoot.style == old(svgRoot.style)["fill" := res.value.0]["opacity" := res.value.1]
                  && svgRoot.defs == (if res.value.2.Some? then DefsWith(old(svgRoot.defs), res.value.2.value) else old(svgRoot.defs)))
    ensures r.Failure? ==> svgRoot.style == old(svgRoot.style) && svgRoot.defs == old(svgRoot.defs)
    ensures svgRoot.classes == old(svgRoot.classes) && svgRoot.attributes == old(svgRoot.attributes)
    ensures svgRoot.innerHtml == old(svgRoot.innerHtml) && svgRoot.innerSvgFill == old(svgRoot.innerSvgFill)
  {
    var styleFill: string;
    var opacity := "1";
    match fillLike {
      case FillName(name) =>
        if name == "keep" {
          styleFill := "var(--rio-local-text-color)";
        } else if name == "dim" {
          styleFill := "var(--rio-local-text-color)";
          opacity := "0.4";
        } else {
          styleFill := "var(--rio-global-" + name + "-bg)";
        }
      case BareColor(c) =>
        styleFill := css(c);
      case ColorSetRecord(bg) =>
        styleFill := css(bg);
      case FillObject(fill) =>
        match fill {
          case SolidFill(c) =>
            styleFill := css(c);
          case LinearGradientFill(angle, stops) =>
            styleFill := CreateLinearGradientFill(svgRoot, angle, stops, freshId);
          case ImageFill(url, mode) =>
            styleFill := CreateImageFill(svgRoot, url, mode, freshId);
          case OtherFill(tag) =>
            return Failure(InvalidFillType(tag));
        }
    }
    svgRoot.style := svgRoot.style["fill" := styleFill];
    svgRoot.style := svgRoot.style["opacity" := opacity];
    r := Success(());
  }

  // ---------------------------------------------------------------------------
  // Icons

  const IconStamp := "data-rio-icon"

  function IconUrl(name: string): string {
    "/rio/icon/" + name
  }

  /** `applyIcon` split at its `await`: `Begin` runs up to the await, `Complete` after it.
      `cache` plays `ICON_PROMISE_CACHE`, mapping a name to the index of its request in
      `fetches`, the log of URLs fetched from the server. */
  class IconLoader {
    var cache: map<string, nat>
    var fetches: seq<string>

    ghost predicate Valid()
      reads this
    {
      forall name :: name in cache ==> cache[name] < |fetches| && fetches[cache[name]] == IconUrl(name)
    }

    constructor ()
      ensures Valid() && cache == map[] && fetches == []
    {
      cache := map[];
      fetches := [];
    }

    /** Looks the name up in the cache, fetching (and caching the pending request) on a
        miss, then stamps the target with the name, all before the await. */
    method Begin(target: Element, name: string) returns (request: nat)
      requires Valid()
      modifies this, target
      ensures Valid()
      ensures name in old(cache) ==> request == old(cache)[name] && cache == old(cache) && fetches == old(fetches)
      ensures name !in old(cache) ==>
                && request == |old(fetches)|
                && fetches == old(fetches) + [IconUrl(name)]
                && cache == old(cache)[name := request]
      ensures request < |fetches| && fetches[request] == IconUrl(name)
      ensures target.attributes == old(target.attributes)[IconStamp := name]
      ensures target.classes == old(target.classes) && target.style == old(target.style)
      ensures target.innerHtml == old(target.innerHtml) && target.innerSvgFill == old(target.innerSvgFill)
      ensures target.defs == old(target.defs)
    {
      if name in cache {
        request := cache[name];
      } else {
        request := |fetches|;
        fetches := fetches + [IconUrl(name)];
        cache := cache[name := request];
      }
      target.attributes := target.attributes[IconStamp := name];
    }

    /** What happens once the request for `name` settles: `svgSource` is `None` when it
        failed. A failure drops the cache entry and leaves the target alone; a success
        applies the icon only if the target's stamp still names this icon. */
    method Complete(target: Element, name: string, svgSource: Option<string>, cssColor: string)
      requires Valid()
      modifies this, target
      ensures Valid() && fetches == old(fetches)
      ensures svgSource.None? ==> cache == old(cache) - {name}
      ensures svgSource.Some? ==> cache == old(cache)
      ensures svgSource.None? || (IconStamp in old(target.attributes) ==> old(target.attributes)[IconStamp] != name)
                || IconStamp !in old(target.attributes) ==>
                && target.attributes == old(target.attributes)
                && target.innerHtml == old(target.innerHtml)
                && target.innerSvgFill == old(target.innerSvgFill)
      ensures svgSource.Some? && IconStamp in old(target.attributes) && old(target.attributes)[IconStamp] == name ==>
                && target.attributes == old(target.attributes) - {IconStamp}
                && target.innerHtml == svgSource.value
                && target.innerSvgFill == Some(cssColor)
      ensures target.classes == old(target.classes) && target.style == old(target.style)
      ensures target.defs == old(target.defs)
    {
      if svgSource.None? {
        cache := cache - {name};
        return;
      }
      if IconStamp !in target.attributes || target.attributes[IconStamp] != name {
        return;
      }
      target.attributes := target.attributes - {IconStamp};
      target.innerHtml := svgSource.value;
      target.innerSvgFill := Some(cssColor);
    }
  }

  /** Two requests for the same icon share the one fetch the first started. */
  method SameIconFetchedOnce(loader: IconLoader, a: Element, b: Element, name: string)
    returns (first: nat, second: nat)
    requires loader.Valid()
    modifies loader, a, b
    ensures first == second
    ensures |loader.fetches| <= |old(loader.fetches)| + 1
  {
    first := loader.Begin(a, name);
    second := loader.Begin(b, name);
  }

  /** Two icons requested for one target, the second settling first: the first one's late
      completion is ignored and the target keeps the second icon. */
  method LateIconIgnored(loader: IconLoader, target: Element, first: string, second: string,
                         firstSvg: string, secondSvg: string, cssColor: string)
    requires loader.Valid() && first != second
    modifies loader, target
    ensures target.innerHtml == secondSvg && IconStamp !in target.attributes
  {
    var _ := loader.Begin(target, first);
    var _ := loader.Begin(target, second);
    loader.Complete(target, second, Some(secondSvg), cssColor);
    loader.Complete(target, first, Some(firstSvg), cssColor);
  }

  /** A failed fetch is forgotten, so the next request for that icon fetches it again. */
  method FailedIconRefetched(loader: IconLoader, target: Element, name: string, cssColor: string)
    requires loader.Valid()
    modifies loader, target
    ensures loader.fetches == old(loader.fetches) + (if name in old(loader.cache) then [] else [IconUrl(name)]) + [IconUrl(name)]
  {
    var _ := loader.Begin(target, name);
    loader.Complete(target, name, None, cssColor);
    var _ := loader.Begin(target, name);
  }
}
