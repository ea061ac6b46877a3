/** The attribute-driven custom elements of renderer/templates.js, reduced to
    what they compute from their attributes: `ImgFrame.updateImage`,
    `GryphIcon.updateGryph`, `InputText.updateOnAttributesChanged` and
    `ItemContainer.updateOrder`. Writing the result into the shadow DOM is not
    modelled. */
module Attributes {
  import opened Wrappers

  /** An element's attributes, by name. */
  type AttributeMap = map<string, string>

  /** `elem.getAttribute(name)`: null (None) when the attribute is absent. */
  function GetAttribute(attrs: AttributeMap, name: string): (r: Option<string>)
    ensures r.Some? <==> name in attrs
    ensures r.Some? ==> r.value == attrs[name]
  {
    if name in attrs then Some(attrs[name]) else None
  }

  /** `value ?? fallback`: only a missing value falls back; "" is kept. */
  function OrElse(value: Option<string>, fallback: string): (r: string)
    ensures value.None? ==> r == fallback
    ensures value.Some? ==> r == value.value
  {
    match value
    case None => fallback
    case Some(v) => v
  }

  /** A missing value interpolated into a template literal prints as "null". */
  function Interpolate(value: Option<string>): (r: string)
    ensures value.None? ==> r == "null"
    ensures value.Some? ==> r == value.value
  {
    match value
    case None => "null"
    case Some(v) => v
  }

  const DefaultFrameSize := "10rem"
  const DefaultFontSize := "1em"
  const DefaultPrefixSymbol := ">"
  const DefaultDirection := "row"

  /** The values an `img-frame` writes into its style sheet. */
  datatype FrameStyle = FrameStyle(width: string, height: string, url: string)

  /** `ImgFrame.updateImage`. */
  function UpdateImage(attrs: AttributeMap): (r: FrameStyle)
    ensures "width" in attrs ==> r.width == attrs["width"]
    ensures "width" !in attrs ==> r.width == DefaultFrameSize
    ensures "height" in attrs ==> r.height == attrs["height"]
    ensures "height" !in attrs ==> r.height == DefaultFrameSize
    ensures "url" in attrs ==> r.url == attrs["url"]
    ensures "url" !in attrs ==> r.url == "null"
  {
    FrameStyle(
      OrElse(GetAttribute(attrs, "width"), DefaultFrameSize),
      OrElse(GetAttribute(attrs, "height"), DefaultFrameSize),
      Interpolate(GetAttribute(attrs, "url")))
  }

  /** The values a `gryph-icon` writes into its style sheet. */
  datatype GryphStyle = GryphStyle(fontSize: string, gryph: string)

  /** `GryphIcon.updateGryph`. */
  function UpdateGryph(attrs: AttributeMap): (r: GryphStyle)
    ensures "font-size" in attrs ==> r.fontSize == attrs["font-size"]
    ensures "font-size" !in attrs ==> r.fontSize == DefaultFontSize
    ensures "gryph" in attrs ==> r.gryph == attrs["gryph"]
    ensures "gryph" !in attrs ==> r.gryph == "null"
  {
    GryphStyle(OrElse(GetAttribute(attrs, "font-size"), DefaultFontSize), Interpolate(GetAttribute(attrs, "gryph")))
  }

  /** `InputText.updateOnAttributesChanged`: the prefix symbol shown before the input. */
  function PrefixSymbol(attrs: AttributeMap): (r: string)
    ensures "prefix-symbol" in attrs ==> r == attrs["prefix-symbol"]
    ensures "prefix-symbol" !in attrs ==> r == DefaultPrefixSymbol
  {
    OrElse(GetAttribute(attrs, "prefix-symbol"), DefaultPrefixSymbol)
  }

  /** `ItemContainer.updateOrder`: the flex direction of the container. */
  function Direction(attrs: AttributeMap): (r: string)
    ensures "direction" in attrs ==> r == attrs["direction"]
    ensures "direction" !in attrs ==> r == DefaultDirection
  {
    OrElse(GetAttribute(attrs, "direction"), DefaultDirection)
  }

  /** Two attribute sets agree on the given names. */
  predicate AgreeOn(a: AttributeMap, b: AttributeMap, names: set<string>)
  {
    forall n :: n in names ==> (n in a <==> n in b) && (n in a ==> a[n] == b[n])
  }

  /** Each element recomputes its presentation from its observed attributes
      alone: attributes it does not observe make no difference. */
  lemma RenderingDependsOnlyOnObserved(a: AttributeMap, b: AttributeMap)
    ensures AgreeOn(a, b, {"url", "width", "height"}) ==> UpdateImage(a) == UpdateImage(b)
    ensures AgreeOn(a, b, {"gryph", "font-size"}) ==> UpdateGryph(a) == UpdateGryph(b)
    ensures AgreeOn(a, b, {"prefix-symbol"}) ==> PrefixSymbol(a) == PrefixSymbol(b)
    ensures AgreeOn(a, b, {"direction"}) ==> Direction(a) == Direction(b)
  {
    if AgreeOn(a, b, {"url", "width", "height"}) {
      assert "url" in {"url", "width", "height"} && "width" in {"url", "width", "height"};
      assert "height" in {"url", "width", "height"};
    }
    if AgreeOn(a, b, {"gryph", "font-size"}) {
      assert "gryph" in {"gryph", "font-size"} && "font-size" in {"gryph", "font-size"};
    }
    if AgreeOn(a, b, {"prefix-symbol"}) {
      assert "prefix-symbol" in {"prefix-symbol"};
    }
    if AgreeOn(a, b, {"direction"}) {
      assert "direction" in {"direction"};
    }
  }

  /** An observed attribute set to the empty string is used as it is, not
      replaced by the default (`??` falls back on null only). */
  lemma EmptyAttributeIsKept(attrs: AttributeMap, name: string)
    requires name in attrs && attrs[name] == ""
    ensures name == "width" ==> UpdateImage(attrs).width == ""
    ensures name == "height" ==> UpdateImage(attrs).height == ""
    ensures name == "url" ==> UpdateImage(attrs).url == ""
    ensures name == "font-size" ==> UpdateGryph(attrs).fontSize == ""
    ensures name == "gryph" ==> UpdateGryph(attrs).gryph == ""
    ensures name == "prefix-symbol" ==> PrefixSymbol(attrs) == ""
    ensures name == "direction" ==> Direction(attrs) == ""
  {
  }
}
