/** The controls of the dev-tools layout page: the segmented `MultiSwitch`, the size
    controls (natural / grow / custom size) and the alignment controls (switch + slider). */
module LayoutSubpage {
  import opened Wrappers
  import opened Strings

  /** The corner radius that makes a segment's outer corners fully round. */
  const FullRadius := 9999

  // ---------------------------------------------------------------------------
  // MultiSwitch

  /** One segment of a `MultiSwitch`: its text, its four corner radii (in the order
      top-left, top-right, bottom-right, bottom-left) and whether it is the active one. */
  datatype Segment = Segment(text: string, cornerRadii: seq<int>, active: bool)

  /** What `MultiSwitch.build` promises about its segments. */
  predicate BuiltSegments(options: seq<string>, selectedValue: string, segments: seq<Segment>) {
    && |segments| == |options|
    && forall i :: 0 <= i < |options| ==>
         && segments[i].text == options[i]
         && |segments[i].cornerRadii| == 4
         && segments[i].cornerRadii[0] == segments[i].cornerRadii[3] == (if i == 0 then FullRadius else 0)
         && segments[i].cornerRadii[1] == segments[i].cornerRadii[2] == (if i == |options| - 1 then FullRadius else 0)
         && (segments[i].active <==> options[i] == selectedValue)
  }

  class MultiSwitch {
    var options: seq<string>
    var selectedValue: string

    constructor (options: seq<string>, selectedValue: string)
      ensures this.options == options && this.selectedValue == selectedValue
    {
      this.options := options;
      this.selectedValue := selectedValue;
    }

    /** `_select_value`: the pressed option becomes the selected one. */
    method SelectValue(value: string)
      modifies this
      ensures selectedValue == value && options == old(options)
    {
      selectedValue := value;
    }

    /** `build`: one segment per option, in order. The first segment rounds its left
        corners, the last its right corners, and exactly the segments showing the
        selected value are active. */
    method Build() returns (segments: seq<Segment>)
      ensures BuiltSegments(options, selectedValue, segments)
    {
      segments := [];
      for ii := 0 to |options|
        invariant |segments| == ii
        invariant forall i :: 0 <= i < ii ==>
                    && segments[i].text == options[i]
                    && |segments[i].cornerRadii| == 4
                    && segments[i].cornerRadii[0] == segments[i].cornerRadii[3] == (if i == 0 then FullRadius else 0)
                    && segments[i].cornerRadii[1] == segments[i].cornerRadii[2] == (if i == |options| - 1 then FullRadius else 0)
                    && (segments[i].active <==> options[i] == selectedValue)
      {
        var value := options[ii];
        var cornerRadii := [0, 0, 0, 0];
        if ii == 0 {
          cornerRadii := cornerRadii[0 := FullRadius][3 := FullRadius];
        }
        if ii == |options| - 1 {
          cornerRadii := cornerRadii[1 := FullRadius][2 := FullRadius];
        }
        var isActive := value == selectedValue;
        segments := segments + [Segment(value, cornerRadii, isActive)];
      }
    }
  }

  /** A single option is rounded on all four corners; options strictly between the first
      and the last have square corners. */
  lemma SegmentCorners(options: seq<string>, selectedValue: string, segments: seq<Segment>)
    requires BuiltSegments(options, selectedValue, segments)
    ensures |options| == 1 ==> segments[0].cornerRadii == [FullRadius, FullRadius, FullRadius, FullRadius]
    ensures forall i :: 0 < i < |options| - 1 ==> segments[i].cornerRadii == [0, 0, 0, 0]
  {
    if |options| == 1 {
      assert segments[0].cornerRadii == [FullRadius, FullRadius, FullRadius, FullRadius];
    }
    forall i | 0 < i < |options| - 1
      ensures segments[i].cornerRadii == [0, 0, 0, 0]
    {
      assert |segments[i].cornerRadii| == 4;
    }
  }

  // ---------------------------------------------------------------------------
  // SizeControls

  /** The value of a component's `width` or `height`. */
  datatype SizeValue = Natural | Grow | Fixed(size: real)

  /** A value as Python holds it before `__post_init__` checks it. */
  datatype RawValue = RawNumber(x: real) | RawString(s: string)

  /** `SizeControls.__post_init__`: only a number, "natural" or "grow" is accepted; the
      assertion fails for anything else. */
  function CheckSizeValue(raw: RawValue): (r: Option<SizeValue>)
    ensures r.Some? <==> raw.RawNumber? || raw == RawString("natural") || raw == RawString("grow")
    ensures r.Some? ==> RawOf(r.value) == raw
  {
    match raw
    case RawNumber(x) => Some(Fixed(x))
    case RawString(s) => if s == "natural" then Some(Natural) else if s == "grow" then Some(Grow) else None
  }

  /** How Python holds a size value. */
  function RawOf(v: SizeValue): RawValue {
    match v
    case Natural => RawString("natural")
    case Grow => RawString("grow")
    case Fixed(x) => RawNumber(x)
  }

  function NaturalName(axis: string): string { "natural " + axis }
  const GrowName := "grow"
  function CustomName(axis: string): string { "custom " + axis }

  /** `_on_multi_switch_change`: which size an option of the switch stands for. Anything
      that is neither a "natural ..." option nor "grow" becomes the number 0. */
  function OptionValue(option: string): SizeValue {
    if StartsWith(option, "natural ") then Natural
    else if option == GrowName then Grow
    else Fixed(0.0)
  }

  /** The option `build` selects for a size value. */
  function SelectedOption(axis: string, value: SizeValue): string {
    match value
    case Fixed(_) => CustomName(axis)
    case Natural => NaturalName(axis)
    case Grow => GrowName
  }

  /** What `SizeControls.build` shows: the switch's options and selected option, and a
      number input holding the size when it is a number. */
  datatype SizeView = SizeView(options: seq<string>, selected: string, numberInput: Option<real>)

  /** Feeding the option `build` selects back through the switch handler keeps "natural"
      and "grow" but turns a custom size into 0. */
  lemma SelectionRoundTrip(axis: string, value: SizeValue)
    ensures OptionValue(SelectedOption(axis, value)) == if value.Fixed? then Fixed(0.0) else value
  {
    match value
    case Natural =>
      assert NaturalName(axis)[..8] == "natural ";
    case Grow =>
      assert !StartsWith(GrowName, "natural ");
    case Fixed(_) =>
      var c := CustomName(axis);
      assert c[0] == 'c';
      assert !StartsWith(c, "natural ") by {
        assert |c| < 8 || c[..8][0] == 'c';
      }
      assert c != GrowName by { assert |c| >= 7; }
  }

  /** The three options of the size switch are distinct, so exactly one of them is the
      selected one. */
  lemma ExactlyOneSizeOption(axis: string, value: SizeValue)
    ensures var options := [NaturalName(axis), GrowName, CustomName(axis)];
            var sel := SelectedOption(axis, value);
            sel in options &&
            forall i, j :: 0 <= i < j < 3 ==> options[i] != options[j]
  {
    var n, g, c := NaturalName(axis), GrowName, CustomName(axis);
    assert n[0] == 'n' && c[0] == 'c' && g[0] == 'g';
  }

  class SizeControls {
    var axis: string
    var value: SizeValue

    constructor (axis: string, value: SizeValue)
      ensures this.axis == axis && this.value == value
    {
      this.axis := axis;
      this.value := value;
    }

    /** `_on_multi_switch_change` */
    method OnMultiSwitchChange(option: string)
      modifies this
      ensures value == OptionValue(option) && axis == old(axis)
    {
      if StartsWith(option, "natural ") {
        value := Natural;
      } else if option == GrowName {
        value := Grow;
      } else {
        value := Fixed(0.0);
      }
    }

    /** `_on_number_input_change` */
    method OnNumberInputChange(size: real)
      modifies this
      ensures value == Fixed(size) && axis == old(axis)
    {
      value := Fixed(size);
    }

    /** `build`: the switch offers natural, grow and custom, selects the option matching
        the value, and shows a number input exactly for a numeric value. */
    function Build(): (v: SizeView)
      reads this
      ensures v.options == [NaturalName(axis), GrowName, CustomName(axis)]
      ensures v.selected in v.options
      ensures v.numberInput.Some? <==> value.Fixed?
      ensures value.Fixed? ==> v.numberInput == Some(value.size)
      ensures OptionValue(v.selected) == if value.Fixed? then Fixed(0.0) else value
    {
      ExactlyOneSizeOption(axis, value);
      SelectionRoundTrip(axis, value);
      SizeView([NaturalName(axis), GrowName, CustomName(axis)],
               SelectedOption(axis, value),
               if value.Fixed? then Some(value.size) else None)
    }
  }

  // ---------------------------------------------------------------------------
  // AlignmentControls

  /** The alignment a switch toggle sets: centred when switched on, none when off. */
  function SwitchedAlignment(isOn: bool): Option<real> {
    if isOn then Some(0.5) else None
  }

  /** What `AlignmentControls.build` shows: the switch's state and, when alignment is
      set, a slider over [minimum, maximum] holding it. */
  datatype Slider = Slider(value: real, minimum: real, maximum: real)
  datatype AlignmentView = AlignmentView(switchOn: bool, slider: Option<Slider>)

  function AlignmentViewOf(value: Option<real>): (v: AlignmentView)
    ensures v.switchOn <==> value.Some?
    ensures v.slider.Some? <==> value.Some?
    ensures value.Some? ==> v.slider.value == Slider(value.value, 0.0, 1.0)
  {
    if value.None? then AlignmentView(false, None)
    else AlignmentView(true, Some(Slider(value.value, 0.0, 1.0)))
  }

  /** Toggling the switch and rebuilding shows the switch in the toggled position, with
      the slider centred when on and no slider when off. */
  lemma SwitchRoundTrip(isOn: bool)
    ensures AlignmentViewOf(SwitchedAlignment(isOn)).switchOn == isOn
    ensures isOn ==> AlignmentViewOf(SwitchedAlignment(isOn)).slider == Some(Slider(0.5, 0.0, 1.0))
    ensures !isOn ==> AlignmentViewOf(SwitchedAlignment(isOn)).slider == None
  {
  }

  class AlignmentControls {
    var axis: string
    var value: Option<real>

    constructor (axis: string, value: Option<real>)
      ensures this.axis == axis && this.value == value
    {
      this.axis := axis;
      this.value := value;
    }

    /** `_on_switch_change` */
    method OnSwitchChange(isOn: bool)
      modifies this
      ensures value == SwitchedAlignment(isOn) && axis == old(axis)
    {
      if isOn {
        value := Some(0.5);
      } else {
        value := None;
      }
    }

    /** `_on_slider_change` */
    method OnSliderChange(alignment: real)
      modifies this
      ensures value == Some(alignment) && axis == old(axis)
    {
      value := Some(alignment);
    }

    /** `build`: the switch is on exactly when an alignment is set, and then a slider
        over [0, 1] shows it. */
    function Build(): (v: AlignmentView)
      reads this
      ensures v.switchOn <==> value.Some?
      ensures v.slider == if value.None? then None else Some(Slider(value.value, 0.0, 1.0))
    {
      AlignmentViewOf(value)
    }
  }
}
