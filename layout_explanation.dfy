/** The dev-tools explanation of why a component received the space it did: a first-match
    decision over the parent's kind, the axis and the parent's "grow" children, followed by
    an alignment remark and a warning about ineffective explicit sizes. The English text is
    replaced by case tags carrying the numbers the text would show. */
module LayoutExplanation {
  import opened Wrappers

  datatype Axis = Width | Height

  /** A component's `width` or `height` attribute. */
  datatype Size = NaturalSize | GrowSize | FixedSize(units: real)

  /** What the grower count needs to know about a child of the parent. */
  datatype Child = Child(width: Size, height: Size)

  /** The parent's class: the four single-content containers match by exact type, `Row`
      and `Column` by `isinstance`; anything else is `OtherKind`. */
  datatype ParentKind = Container | Card | Button | Link | Row | Column | OtherKind

  datatype ParentInfo = ParentInfo(kind: ParentKind, children: seq<Child>)

  /** The component being explained: its size attributes, alignments and effective margins. */
  datatype Component = Component(
    width: Size, height: Size,
    alignX: Option<real>, alignY: Option<real>,
    marginLeft: real, marginRight: real, marginTop: real, marginBottom: real)

  /** The client-side layout of the component, as reported by the frontend. */
  datatype Layout = Layout(
    parentId: int,
    allocatedWidthBeforeAlignment: real, allocatedHeightBeforeAlignment: real,
    parentAllocatedWidth: real, parentAllocatedHeight: real,
    parentNaturalWidth: real, parentNaturalHeight: real,
    allocatedWidth: real, allocatedHeight: real,
    naturalWidth: real, naturalHeight: real)

  function SizeOn(c: Child, axis: Axis): Size {
    if axis == Width then c.width else c.height
  }

  function AsChild(comp: Component): Child {
    Child(comp.width, comp.height)
  }

  function AllocatedBeforeAlignment(layout: Layout, axis: Axis): real {
    if axis == Width then layout.allocatedWidthBeforeAlignment else layout.allocatedHeightBeforeAlignment
  }

  function ParentAllocated(layout: Layout, axis: Axis): real {
    if axis == Width then layout.parentAllocatedWidth else layout.parentAllocatedHeight
  }

  function ParentNatural(layout: Layout, axis: Axis): real {
    if axis == Width then layout.parentNaturalWidth else layout.parentNaturalHeight
  }

  // ---------------------------------------------------------------------------
  // Growers

  /** The number of children whose size on `axis` is "grow". */
  function GrowCount(children: seq<Child>, axis: Axis): nat {
    if children == [] then 0
    else GrowCount(children[..|children| - 1], axis) + (if SizeOn(children[|children| - 1], axis) == GrowSize then 1 else 0)
  }

  /** The positions of the children that grow on `axis`. */
  ghost function GrowIndices(children: seq<Child>, axis: Axis): set<int> {
    set i | 0 <= i < |children| && SizeOn(children[i], axis) == GrowSize
  }

  /** The grower count is the number of growing children. */
  lemma {:induction false} GrowCountCountsGrowers(children: seq<Child>, axis: Axis)
    ensures GrowCount(children, axis) == |GrowIndices(children, axis)|
  {
    if children != [] {
      var n := |children|;
      var front := children[..n - 1];
      GrowCountCountsGrowers(front, axis);
      assert forall i :: 0 <= i < n - 1 ==> front[i] == children[i];
      if SizeOn(children[n - 1], axis) == GrowSize {
        assert GrowIndices(children, axis) == GrowIndices(front, axis) + {n - 1};
      } else {
        assert GrowIndices(children, axis) == GrowIndices(front, axis);
      }
    }
  }

  /** A growing component that is among its parent's children is counted, so "grow" on
      the component itself rules out the no-growers case. */
  lemma GrowerAmongChildren(children: seq<Child>, comp: Component, axis: Axis)
    requires AsChild(comp) in children && SizeOn(AsChild(comp), axis) == GrowSize
    ensures GrowCount(children, axis) >= 1
  {
    var i :| 0 <= i < |children| && children[i] == AsChild(comp);
    GrowCountCountsGrowers(children, axis);
    assert i in GrowIndices(children, axis);
  }

  /** The loop that counts the growers on both axes at once. */
  method CountGrowers(children: seq<Child>) returns (widthGrowers: nat, heightGrowers: nat)
    ensures widthGrowers == GrowCount(children, Width)
    ensures heightGrowers == GrowCount(children, Height)
  {
    widthGrowers, heightGrowers := 0, 0;
    for i := 0 to |children|
      invariant widthGrowers == GrowCount(children[..i], Width)
      invariant heightGrowers == GrowCount(children[..i], Height)
    {
      assert children[..i + 1][..i] == children[..i];
      if children[i].width == GrowSize {
        widthGrowers := widthGrowers + 1;
      }
      if children[i].height == GrowSize {
        heightGrowers := heightGrowers + 1;
      }
    }
    assert children[..|children|] == children;
  }

  // ---------------------------------------------------------------------------
  // Space handed down by the parent

  datatype AllocationCase =
    | UnknownParent       // the parent is not (or no longer) known to the session
    | TopLevel            // the app's top-level component: the whole window
    | SingleContainer     // Container, Card, Button, Link pass on all their space
    | MinorAxis           // Row/height or Column/width: every child gets the full size
    | OnlyChild           // the only child of a Row/Column
    | NoSuperfluousSpace  // the Row/Column has no space beyond its natural size
    | NoGrowers           // superfluous space split evenly between all children
    | NotAGrower          // other children grow, this one keeps its minimum
    | SharedGrowers       // superfluous space split between several growers, this included
    | OnlyGrower          // the only grower receives all superfluous space
    | GenericParent       // no specialised explanation for this kind of parent

  predicate IsSingleContainer(kind: ParentKind) {
    kind == Container || kind == Card || kind == Button || kind == Link
  }

  predicate IsMinorAxis(kind: ParentKind, axis: Axis) {
    (kind == Row && axis == Height) || (kind == Column && axis == Width)
  }

  predicate IsGrowerCase(c: AllocationCase) {
    c == NoGrowers || c == NotAGrower || c == SharedGrowers || c == OnlyGrower
  }

  /** The grower analysis: the four outcomes are exclusive and exhaustive. */
  function GrowerCase(nGrowers: nat, isGrower: bool): (r: AllocationCase)
    ensures IsGrowerCase(r)
    ensures r == NoGrowers <==> nGrowers == 0
    ensures r == NotAGrower <==> nGrowers > 0 && !isGrower
    ensures r == SharedGrowers <==> nGrowers > 1 && isGrower
    ensures r == OnlyGrower <==> nGrowers == 1 && isGrower
  {
    if nGrowers == 0 then NoGrowers
    else if !isGrower then NotAGrower
    else if nGrowers > 1 then SharedGrowers
    else OnlyGrower
  }

  /** `_explain_allocated_space_before_alignment`, given the session's components by id
      and whether the component is the user's root component. */
  function AllocationCaseOf(components: map<int, ParentInfo>, isTopLevel: bool, comp: Component,
                            layout: Layout, axis: Axis): (r: AllocationCase)
    ensures r == UnknownParent <==> layout.parentId !in components
    ensures r == TopLevel <==> layout.parentId in components && isTopLevel
    ensures r == SingleContainer <==>
              layout.parentId in components && !isTopLevel && IsSingleContainer(components[layout.parentId].kind)
    ensures r == GenericParent <==>
              layout.parentId in components && !isTopLevel && components[layout.parentId].kind == OtherKind
  {
    if layout.parentId !in components then UnknownParent
    else
      var parent := components[layout.parentId];
      if isTopLevel then TopLevel
      else if IsSingleContainer(parent.kind) then SingleContainer
      else if parent.kind == Row || parent.kind == Column then
        if IsMinorAxis(parent.kind, axis) then MinorAxis
        else if |parent.children| == 1 then OnlyChild
        else if ParentAllocated(layout, axis) < ParentNatural(layout, axis) + 0.1 then NoSuperfluousSpace
        else GrowerCase(GrowCount(parent.children, axis), SizeOn(AsChild(comp), axis) == GrowSize)
      else GenericParent
  }

  /** Inside a Row or Column the checks run in order: minor axis, only child, no
      superfluous space, and only then the grower analysis. */
  lemma RowColumnCaseOrder(components: map<int, ParentInfo>, isTopLevel: bool, comp: Component,
                           layout: Layout, axis: Axis)
    requires layout.parentId in components && !isTopLevel
    requires components[layout.parentId].kind == Row || components[layout.parentId].kind == Column
    ensures var parent := components[layout.parentId];
            var r := AllocationCaseOf(components, isTopLevel, comp, layout, axis);
            && (r == MinorAxis <==> IsMinorAxis(parent.kind, axis))
            && (r == OnlyChild <==> !IsMinorAxis(parent.kind, axis) && |parent.children| == 1)
            && (r == NoSuperfluousSpace <==>
                  !IsMinorAxis(parent.kind, axis) && |parent.children| != 1
                  && ParentAllocated(layout, axis) < ParentNatural(layout, axis) + 0.1)
            && (IsGrowerCase(r) <==>
                  !IsMinorAxis(parent.kind, axis) && |parent.children| != 1
                  && ParentAllocated(layout, axis) >= ParentNatural(layout, axis) + 0.1)
  {
  }

  /** Once the grower analysis is reached, the outcome depends on the number of growing
      children and on whether the component itself grows, and on nothing else. */
  lemma GrowerAnalysis(components: map<int, ParentInfo>, isTopLevel: bool, comp: Component,
                       layout: Layout, axis: Axis)
    requires IsGrowerCase(AllocationCaseOf(components, isTopLevel, comp, layout, axis))
    ensures layout.parentId in components
    ensures var n := |GrowIndices(components[layout.parentId].children, axis)|;
            var grows := SizeOn(AsChild(comp), axis) == GrowSize;
            var r := AllocationCaseOf(components, isTopLevel, comp, layout, axis);
            && (r == NoGrowers <==> n == 0)
            && (r == NotAGrower <==> n > 0 && !grows)
            && (r == SharedGrowers <==> n > 1 && grows)
            && (r == OnlyGrower <==> n == 1 && grows)
  {
    GrowCountCountsGrowers(components[layout.parentId].children, axis);
  }

  /** The minor axis of a Row or Column wins over everything about its children. */
  lemma MinorAxisIgnoresChildren(components: map<int, ParentInfo>, comp: Component, layout: Layout,
                                 axis: Axis, children: seq<Child>)
    requires layout.parentId in components && IsMinorAxis(components[layout.parentId].kind, axis)
    ensures var other := components[layout.parentId := ParentInfo(components[layout.parentId].kind, children)];
            AllocationCaseOf(components, false, comp, layout, axis) == MinorAxis
            && AllocationCaseOf(other, false, comp, layout, axis) == MinorAxis
  {
  }

  // ---------------------------------------------------------------------------
  // Alignment and size warning

  function AllocatedSpace(layout: Layout, axis: Axis): real {
    if axis == Width then layout.allocatedWidth else layout.allocatedHeight
  }

  function NaturalSpace(layout: Layout, axis: Axis): real {
    if axis == Width then layout.naturalWidth else layout.naturalHeight
  }

  function TotalMargin(comp: Component, axis: Axis): real {
    if axis == Width then comp.marginLeft + comp.marginRight else comp.marginTop + comp.marginBottom
  }

  function SpecifiedSize(comp: Component, axis: Axis): Size {
    if axis == Width then comp.width else comp.height
  }

  /** The component's alignment along `axis`. */
  function AlignmentOn(comp: Component, axis: Axis): Option<real> {
    if axis == Width then comp.alignX else comp.alignY
  }

  datatype AlignmentCase =
    | MatchesNeeded          // the space is what the component needs
    | UsesAllSpace           // no alignment: the component fills the space
    | Aligned(alignment: real)  // aligned: the given fraction of leftover space lies on the start side

  /** The alignment remark as the source writes it: `align_x` is consulted on both axes. */
  function AlignmentCaseAsWritten(comp: Component, layout: Layout, axis: Axis): (r: AlignmentCase)
    ensures r == MatchesNeeded <==>
              AllocatedSpace(layout, axis) < NaturalSpace(layout, axis) + TotalMargin(comp, axis) + 0.1
    ensures r == UsesAllSpace <==> r != MatchesNeeded && comp.alignX.None?
    ensures r.Aligned? <==> r != MatchesNeeded && comp.alignX.Some?
    ensures r.Aligned? ==> comp.alignX == Some(r.alignment)
  {
    if AllocatedSpace(layout, axis) < NaturalSpace(layout, axis) + TotalMargin(comp, axis) + 0.1 then MatchesNeeded
    else if comp.alignX.None? then UsesAllSpace
    else Aligned(comp.alignX.value)
  }

  /** The alignment remark with the alignment of the axis being explained. */
  function AlignmentCaseOf(comp: Component, layout: Layout, axis: Axis): (r: AlignmentCase)
    ensures r == MatchesNeeded <==>
              AllocatedSpace(layout, axis) < NaturalSpace(layout, axis) + TotalMargin(comp, axis) + 0.1
    ensures r == UsesAllSpace <==> r != MatchesNeeded && AlignmentOn(comp, axis).None?
    ensures r.Aligned? <==> r != MatchesNeeded && AlignmentOn(comp, axis).Some?
    ensures r.Aligned? ==> AlignmentOn(comp, axis) == Some(r.alignment)
  {
    if AllocatedSpace(layout, axis) < NaturalSpace(layout, axis) + TotalMargin(comp, axis) + 0.1 then MatchesNeeded
    else match AlignmentOn(comp, axis)
      case None => UsesAllSpace
      case Some(a) => Aligned(a)
  }

  /** On the width axis the two agree. */
  lemma AsWrittenAgreesOnWidth(comp: Component, layout: Layout)
    ensures AlignmentCaseAsWritten(comp, layout, Width) == AlignmentCaseOf(comp, layout, Width)
  {
  }

  /** A component aligned vertically but not horizontally, with room to spare on its height:
      as written, the height explanation says it uses all the space, although it is aligned. */
  lemma AsWrittenIgnoresVerticalAlignment()
    ensures var comp := Component(NaturalSize, NaturalSize, None, Some(0.0), 0.0, 0.0, 0.0, 0.0);
            var layout := Layout(0, 10.0, 10.0, 10.0, 10.0, 1.0, 1.0, 10.0, 10.0, 1.0, 1.0);
            && AlignmentCaseAsWritten(comp, layout, Height) == UsesAllSpace
            && AlignmentCaseOf(comp, layout, Height) == Aligned(0.0)
  {
  }

  /** The ineffective-size warning: present exactly when the size is set to a number
      smaller than the natural size, and then carrying both. */
  function SizeWarningOf(comp: Component, layout: Layout, axis: Axis): (r: Option<(real, real)>)
    ensures r.Some? <==> SpecifiedSize(comp, axis).FixedSize? && SpecifiedSize(comp, axis).units < NaturalSpace(layout, axis)
    ensures r.Some? ==> r.value == (SpecifiedSize(comp, axis).units, NaturalSpace(layout, axis))
  {
    match SpecifiedSize(comp, axis)
    case FixedSize(units) => if units < NaturalSpace(layout, axis) then Some((units, NaturalSpace(layout, axis))) else None
    case _ => None
  }

  // ---------------------------------------------------------------------------
  // The explanation text

  /** A piece written into the explanation buffer. */
  datatype Part =
    | Allocation(reason: AllocationCase, space: real)
    | Separator
    | Alignment(alignment: AlignmentCase)
    | IneffectiveSize(specified: real, natural: real)

  /** The pieces of the explanation on one axis, in writing order: it opens with the space
      handed down, then the alignment remark; the warning is the last piece, present exactly
      when the explicit size is ineffective. */
  function Explanation(components: map<int, ParentInfo>, isTopLevel: bool, comp: Component,
                       layout: Layout, axis: Axis): (e: seq<Part>)
    ensures 3 <= |e| <= 4
    ensures e[0] == Allocation(AllocationCaseOf(components, isTopLevel, comp, layout, axis), AllocatedBeforeAlignment(layout, axis))
    ensures e[1] == Separator
    ensures e[2] == Alignment(AlignmentCaseOf(comp, layout, axis))
    ensures |e| == 4 <==> SpecifiedSize(comp, axis).FixedSize? && SpecifiedSize(comp, axis).units < NaturalSpace(layout, axis)
    ensures |e| == 4 ==> e[3] == IneffectiveSize(SpecifiedSize(comp, axis).units, NaturalSpace(layout, axis))
  {
    [Allocation(AllocationCaseOf(components, isTopLevel, comp, layout, axis), AllocatedBeforeAlignment(layout, axis)),
     Separator,
     Alignment(AlignmentCaseOf(comp, layout, axis))]
    + match SizeWarningOf(comp, layout, axis)
      case None => []
      case Some(w) => [IneffectiveSize(w.0, w.1)]
  }

  /** `_explain_layout_in_axis`: writes the pieces into a buffer one after another. */
  method ExplainInAxis(components: map<int, ParentInfo>, isTopLevel: bool, comp: Component,
                       layout: Layout, axis: Axis) returns (result: seq<Part>)
    ensures result == Explanation(components, isTopLevel, comp, layout, axis)
  {
    var allocatedSpace, specifiedSize, naturalSize, totalMargin;
    if axis == Width {
      allocatedSpace := layout.allocatedWidth;
      specifiedSize := comp.width;
      naturalSize := layout.naturalWidth;
      totalMargin := comp.marginLeft + comp.marginRight;
    } else {
      allocatedSpace := layout.allocatedHeight;
      specifiedSize := comp.height;
      naturalSize := layout.naturalHeight;
      totalMargin := comp.marginTop + comp.marginBottom;
    }
    result := [];
    result := result + [Allocation(AllocationCaseOf(components, isTopLevel, comp, layout, axis),
                                   AllocatedBeforeAlignment(layout, axis))];
    result := result + [Separator];
    var alignment := AlignmentOn(comp, axis);
    if allocatedSpace < naturalSize + totalMargin + 0.1 {
      result := result + [Alignment(MatchesNeeded)];
    } else if alignment.None? {
      result := result + [Alignment(UsesAllSpace)];
    } else {
      result := result + [Alignment(Aligned(alignment.value))];
    }
    if specifiedSize.FixedSize? && specifiedSize.units < naturalSize {
      result := result + [IneffectiveSize(specifiedSize.units, naturalSize)];
    }
  }

  /** `explain_layout`: the width explanation first, then the height explanation. */
  method ExplainLayout(components: map<int, ParentInfo>, isTopLevel: bool, comp: Component,
                       layout: Layout) returns (width: seq<Part>, height: seq<Part>)
    ensures width == Explanation(components, isTopLevel, comp, layout, Width)
    ensures height == Explanation(components, isTopLevel, comp, layout, Height)
  {
    width := ExplainInAxis(components, isTopLevel, comp, layout, Width);
    height := ExplainInAxis(components, isTopLevel, comp, layout, Height);
  }
}
