/** Clickable widgets: a button with text and an optional background image
    (Button) and a labelled on/off slider switch built on it (Switch). The
    action handler is external: Interact reports whether it is called.
    Widths and positions are exact reals. */
module Widgets {
  import opened Util
  import opened Argb

  /** Integer.MIN_VALUE: the border colour that disables the border. */
  const MinInt: int := -0x8000_0000

  /** CHANNEL_DIFF: how much darker each channel of the switch channel is. */
  const ChannelDiff: int := 24
  const BorderGap: real := 5.0
  const ChannelRatio: real := 0.15
  const SliderChange: real := 0.04

  class Button {
    var pos: Vec
    var size: Vec
    var text: string
    /** A background image was given (BGImage != null). */
    var hasImage: bool
    /** The border colour, as the Java int. */
    var bColor: int
    /** An action handler was given (action != null). */
    var hasAction: bool

    constructor(pos: Vec, size: Vec, text: string, hasImage: bool, bColor: int, hasAction: bool)
      ensures this.pos == pos && this.size == size && this.text == text
      ensures this.hasImage == hasImage && this.bColor == bColor && this.hasAction == hasAction
    {
      this.pos, this.size, this.text := pos, size, text;
      this.hasImage, this.bColor, this.hasAction := hasImage, bColor, hasAction;
    }

    /** (x, y) lies in the button's rectangle, edges included. */
    predicate Inside(x: int, y: int)
      reads this
    {
      && x as real <= pos.x + size.x && x as real >= pos.x
      && y as real <= pos.y + size.y && y as real >= pos.y
    }

    /** The action is called for this event. */
    predicate Fires(x: int, y: int, t: InteractionType)
      reads this
    {
      hasAction && (t != MouseDown || Inside(x, y))
    }

    /** interact: call the action when there is one and the event is not a
        mouse press outside the button. */
    method Interact(x: int, y: int, t: InteractionType) returns (called: bool)
      ensures called == Fires(x, y, t)
    {
      called := hasAction && (t != MouseDown || (x as real <= pos.x + size.x && x as real >= pos.x
                && y as real <= pos.y + size.y && y as real >= pos.y));
    }

    /** setText: a missing text leaves the text as it was. */
    method SetText(newText: Option<string>)
      modifies this
      ensures newText.Some? ==> text == newText.value
      ensures newText.None? ==> text == old(text)
      ensures pos == old(pos) && size == old(size) && hasImage == old(hasImage)
      ensures bColor == old(bColor) && hasAction == old(hasAction)
    {
      if newText.Some? {
        text := newText.value;
      }
    }

    /** The solid background and border is drawn. */
    predicate HasBackground()
      reads this
    {
      !hasImage || bColor != MinInt
    }

    function ImagePart(): RenderObject
      reads this
    {
      ImageItem(pos.x, pos.y, size.x, size.y)
    }

    function BackgroundPart(): RenderObject
      reads this
    {
      RectItem(pos.x, pos.y, size.x, size.y)
    }

    function TextPart(): RenderObject
      reads this
    {
      TextItem(text, pos.x + size.x / 2.0, pos.y + size.y / 2.0, size.x, size.y)
    }

    /** render: the image (if any), then the background (if drawn), then
        the text, which is always last. */
    method Render() returns (r: seq<RenderObject>)
      ensures |r| == 1 + (if hasImage then 1 else 0) + (if HasBackground() then 1 else 0)
      ensures 2 <= |r| <= 3
      ensures r[|r| - 1] == TextPart()
      ensures hasImage ==> r[0] == ImagePart()
      ensures HasBackground() ==> r[|r| - 2] == BackgroundPart()
      ensures BackgroundPart() in r <==> HasBackground()
    {
      var cX := pos.x + size.x / 2.0;
      var cY := pos.y + size.y / 2.0;
      var b: Option<RenderObject> := None;
      var p: Option<RenderObject> := None;
      if !hasImage || bColor != MinInt {
        b := Some(RectItem(pos.x, pos.y, size.x, size.y));
      }
      if hasImage {
        p := Some(ImageItem(pos.x, pos.y, size.x, size.y));
      }
      var t := TextItem(text, cX, cY, size.x, size.y);
      var tmp := [];
      if p.Some? {
        tmp := tmp + [p.value];
      }
      if b.Some? {
        tmp := tmp + [b.value];
      }
      tmp := tmp + [t];
      r := tmp;
    }
  }

  /** A mouse press that reaches a button through the container (it is
      inside the button's rectangle) fires exactly when an action is set;
      other events fire it wherever they happen. */
  lemma PressInside(b: Button, x: int, y: int, t: InteractionType, x2: int, y2: int)
    ensures b.Inside(x, y) ==> (b.Fires(x, y, t) <==> b.hasAction)
    ensures t != MouseDown ==> b.Fires(x, y, t) == b.Fires(x2, y2, t)
    ensures !b.hasAction ==> !b.Fires(x, y, t)
  {
  }

  /** One RGB channel of the switch channel colour: 24 darker, clamped at 0. */
  function Darker(v: int): (d: int)
    ensures v <= ChannelDiff ==> d == 0
    ensures v > ChannelDiff ==> d == v - ChannelDiff
  {
    if v <= ChannelDiff then 0 else v - ChannelDiff
  }

  /** getChannelColor: split into components, darken the three colour
      channels and pack again. */
  method ChannelColor(color: Color) returns (r: Color)
    ensures ToArgb(r)[0] == ToArgb(color)[0]
    ensures forall k :: 1 <= k < 4 ==> ToArgb(r)[k] == Darker(ToArgb(color)[k])
  {
    var d := ToArgb(color);
    var dColor := new int[4](k requires 0 <= k < 4 => d[k]);
    var i := 1;
    while i < dColor.Length
      invariant 1 <= i <= 4
      invariant dColor[0] == d[0]
      invariant forall k :: 1 <= k < i ==> dColor[k] == Darker(d[k])
      invariant forall k :: i <= k < 4 ==> dColor[k] == d[k]
    {
      dColor[i] := if dColor[i] <= ChannelDiff then 0 else dColor[i] - ChannelDiff;
      i := i + 1;
    }
    ToFromArgb(dColor[..]);
    r := FromArgb(dColor[..]);
  }

  /** The slider position after one render: toward the right end of the
      channel when on, toward 0 when off, by SLIDER_CHANGE of the slider
      width per frame, snapping to the end once past it. */
  function SliderStep(on: bool, pos: real, channelWidth: real): real
  {
    var sliderWidth := channelWidth / 2.0;
    var target := channelWidth - sliderWidth;
    if on then
      if pos < target then pos + sliderWidth * SliderChange
      else if pos > target then target
      else pos
    else
      if pos > 0.0 then pos - sliderWidth * SliderChange
      else if pos < 0.0 then 0.0
      else pos
  }

  /** The slider never leaves the channel by more than one step. */
  lemma SliderBounded(on: bool, pos: real, channelWidth: real)
    requires channelWidth >= 0.0
    requires -(channelWidth / 2.0 * SliderChange) <= pos <= channelWidth / 2.0 + channelWidth / 2.0 * SliderChange
    ensures var p := SliderStep(on, pos, channelWidth);
      -(channelWidth / 2.0 * SliderChange) <= p <= channelWidth / 2.0 + channelWidth / 2.0 * SliderChange
  {
  }

  /** At rest at one end, the slider stays there while the state agrees,
      and it moves away from that end by one step when the state flips. */
  lemma SliderEnds(channelWidth: real)
    requires channelWidth > 0.0
    ensures SliderStep(true, channelWidth / 2.0, channelWidth) == channelWidth / 2.0
    ensures SliderStep(false, 0.0, channelWidth) == 0.0
    ensures SliderStep(true, 0.0, channelWidth) == channelWidth / 2.0 * SliderChange
    ensures SliderStep(false, channelWidth / 2.0, channelWidth) == channelWidth / 2.0 - channelWidth / 2.0 * SliderChange
  {
  }

  /** `k` renders with the state fixed. */
  function SliderSteps(on: bool, pos: real, channelWidth: real, k: nat): real
  {
    if k == 0 then pos else SliderStep(on, SliderSteps(on, pos, channelWidth, k - 1), channelWidth)
  }

  /** Switched on at the left end, the slider moves one step per frame and
      after 25 frames rests exactly at the right end (it takes
      1/SLIDER_CHANGE frames to cross). */
  lemma {:induction false} SliderTravel(s: real, k: nat)
    requires s > 0.0 && k <= 25
    ensures SliderSteps(true, 0.0, 50.0 * s, k) == k as real * s
  {
    if k > 0 {
      var j := k - 1;
      SliderTravel(s, j);
      SliderStepAt(s, j, k);
    }
  }

  lemma SliderStepAt(s: real, j: int, k: int)
    requires s > 0.0 && 0 <= j < 25 && k == j + 1
    ensures SliderStep(true, j as real * s, 50.0 * s) == k as real * s
  {
    var w := 50.0 * s;
    assert w / 2.0 == 25.0 * s;
    assert w / 2.0 * SliderChange == s;
    assert j as real * s < 25.0 * s by {
      assert 25.0 * s - j as real * s == (25 - j) as real * s;
    }
  }

  /** A switch: a button whose text is drawn as a label beside a channel
      with a slider showing the on/off state. */
  class Switch {
    const button: Button
    var channelColor: Color
    var sliderPos: real
    var state: bool

    /** A switch with a solid background starts off, with the slider at the
        left and the channel a darker shade of the background colour. */
    constructor(button: Button, bgColor: Color)
      ensures this.button == button && !state && sliderPos == 0.0
      ensures ToArgb(channelColor)[0] == ToArgb(bgColor)[0]
      ensures forall k :: 1 <= k < 4 ==> ToArgb(channelColor)[k] == Darker(ToArgb(bgColor)[k])
    {
      var c := ChannelColor(bgColor);
      this.button := button;
      state := false;
      channelColor := c;
      sliderPos := 0.0;
    }

    /** A switch with an image background starts off, with the slider at the
        left and the default grey channel. */
    constructor WithImage(button: Button)
      ensures this.button == button && !state && sliderPos == 0.0
      ensures ToArgb(channelColor) == [255, 128, 128, 128]
    {
      this.button := button;
      state := false;
      channelColor := FromArgb([255, 128, 128, 128]);
      sliderPos := 0.0;
      ToFromArgb([255, 128, 128, 128]);
    }

    method Toggle()
      modifies this
      ensures state == !old(state)
      ensures sliderPos == old(sliderPos) && channelColor == old(channelColor)
    {
      state := !state;
    }

    method SetState(newState: bool)
      modifies this
      ensures state == newState
      ensures sliderPos == old(sliderPos) && channelColor == old(channelColor)
    {
      state := newState;
    }

    method GetState() returns (s: bool)
      ensures s == state
    {
      s := state;
    }

    /** interact: the button's own handling, then a mouse press flips the
        state, wherever it happens. */
    method Interact(x: int, y: int, t: InteractionType) returns (called: bool)
      modifies this
      ensures called == button.Fires(x, y, t)
      ensures state == (if t == MouseDown then !old(state) else old(state))
      ensures sliderPos == old(sliderPos) && channelColor == old(channelColor)
    {
      called := button.Interact(x, y, t);
      if t == MouseDown {
        Toggle();
      }
    }

    function ChannelWidth(): real
      reads this, button
    {
      button.size.x * ChannelRatio
    }

    /** render: the button's components without its text, then the label,
        the channel and the slider; the slider first moves one step. */
    method Render() returns (items: seq<RenderObject>)
      modifies this
      ensures sliderPos == SliderStep(state, old(sliderPos), ChannelWidth())
      ensures state == old(state) && channelColor == old(channelColor)
      ensures var fs := if button.hasImage then 1 else 0;
        var bg := if button.HasBackground() then 1 else 0;
        && |items| == fs + bg + 3
        && (button.hasImage ==> items[0] == button.ImagePart())
        && (button.HasBackground() && button.hasImage ==> items[1] == button.BackgroundPart())
        && (button.HasBackground() && !button.hasImage ==> items[0] == button.BackgroundPart())
        && button.TextPart() !in items[..fs + bg]
      ensures items[|items| - 3..] == [Label(), Channel(), Slider()]
    {
      var fs := button.Render();
      var channelWidth := button.size.x * ChannelRatio;
      var channelHeight := button.size.y - BorderGap * 2.0;
      var channel := RectItem(button.pos.x + BorderGap, button.pos.y + BorderGap, channelWidth, channelHeight);
      var caption := TextItem(button.text, button.pos.x + channelWidth + BorderGap * 2.0, button.pos.y,
                            button.size.x - (channelWidth + BorderGap * 3.0), button.size.y);
      var sliderWidth := channelWidth / 2.0;
      if state {
        if sliderPos < channelWidth - sliderWidth {
          sliderPos := sliderPos + sliderWidth * SliderChange;
        } else if sliderPos > channelWidth - sliderWidth {
          sliderPos := channelWidth - sliderWidth;
        }
      } else {
        if sliderPos > 0.0 {
          sliderPos := sliderPos - sliderWidth * SliderChange;
        } else if sliderPos < 0.0 {
          sliderPos := 0.0;
        }
      }
      var slider := RectItem(button.pos.x + BorderGap + sliderPos, button.pos.y + BorderGap, sliderWidth, channelHeight);
      if |fs| == 3 {
        items := [fs[0], fs[1], caption, channel, slider];
      } else {
        items := [fs[0], caption, channel, slider];
      }
    }

    function Label(): RenderObject
      reads this, button
    {
      TextItem(button.text, button.pos.x + ChannelWidth() + BorderGap * 2.0, button.pos.y,
               button.size.x - (ChannelWidth() + BorderGap * 3.0), button.size.y)
    }

    function Channel(): RenderObject
      reads this, button
    {
      RectItem(button.pos.x + BorderGap, button.pos.y + BorderGap, ChannelWidth(), button.size.y - BorderGap * 2.0)
    }

    function Slider(): RenderObject
      reads this, button
    {
      RectItem(button.pos.x + BorderGap + sliderPos, button.pos.y + BorderGap, ChannelWidth() / 2.0, button.size.y - BorderGap * 2.0)
    }
  }
}
