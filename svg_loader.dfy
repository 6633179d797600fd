/**
 * The SVG loader: how a colour argument is classified, how a colour reaches the
 * root <svg> element's attributes, how the root is given its pixel size before
 * it is transcoded, the overloads' defaults, the path of a Bootstrap icon, the
 * hexadecimal colour text, and the lazily created shared loader.
 *
 * The bundled resources, the theme stylesheet, the named-colour parser
 * (Color.web) and the transcoder are inputs, bundled in an Env.
 */
module SvgLoading {
  import opened Wrappers
  import opened Numerals
  import BiIcons

  // ---------------------------------------------------------------------------
  // Colours as text

  /** A colour of the theme or of Color.web, by its integer channels. */
  datatype Color = Color(red: Channel, green: Channel, blue: Channel)

  /** String.format("%02x", n) for a non-negative n: lowercase hex, zero-padded to two digits. */
  function Hex02(n: nat): (s: string)
    ensures IsNumeral(s, 16) && 2 <= |s|
  {
    var digits := Numeral(n, 16);
    if |digits| < 2 then "0" + digits else digits
  }

  /**
   * format: Integer.toHexString of the channel with a single digit padded by
   * "0". The rounding of the double argument to an int is not modelled.
   */
  function Format(n: nat): (s: string)
    ensures n < 256 ==> |s| == 2
    ensures s == Hex02(n)
  {
    var digits := Numeral(n, 16);
    if |digits| == 1 then "0" + digits else digits
  }

  /** Two hex digits read back as the number they were written from. */
  lemma Hex02RoundTrip(n: nat)
    ensures ParseNumeral(Hex02(n), 16) == n
  {
    var digits := Numeral(n, 16);
    ParseNumeralOfNumeral(n, 16);
    if |digits| < 2 {
      var s := "0" + digits;
      assert s[..|s| - 1] == "0";
      assert ParseNumeral("0", 16) == 0 by {
        assert "0"[..0] == [];
      }
    }
  }

  /** toHexString: "#" and the three channels, each as %02x. */
  function ToHexString(c: Color): (s: string)
    ensures |s| == 7 && s[0] == '#'
    ensures forall i :: 1 <= i < 7 ==> IsLowerHexDigit(s[i])
  {
    "#" + Hex02(c.red) + Hex02(c.green) + Hex02(c.blue)
  }

  /** The three two-digit fields of the colour text decode back to the channels. */
  lemma ToHexStringRoundTrip(c: Color)
    ensures var s := ToHexString(c);
      IsNumeral(s[1..3], 16) && IsNumeral(s[3..5], 16) && IsNumeral(s[5..7], 16)
      && ParseNumeral(s[1..3], 16) == c.red
      && ParseNumeral(s[3..5], 16) == c.green
      && ParseNumeral(s[5..7], 16) == c.blue
  {
    var s := ToHexString(c);
    assert s[1..3] == Hex02(c.red);
    assert s[3..5] == Hex02(c.green);
    assert s[5..7] == Hex02(c.blue);
    Hex02RoundTrip(c.red);
    Hex02RoundTrip(c.green);
    Hex02RoundTrip(c.blue);
  }

  // ---------------------------------------------------------------------------
  // The colour argument

  /** String.startsWith. */
  predicate StartsWith(s: string, prefix: string) {
    |prefix| <= |s| && s[..|prefix|] == prefix
  }

  /** The four ways loadSvgImage treats its colour argument. */
  datatype ColorClass = NoColor | ThemeToken(text: string) | HexColor(text: string) | NamedColor(text: string)

  /**
   * The colour argument: null is no colour; a "-fx-" prefix is a theme token
   * (tested first); a "#" prefix is a literal colour; anything else is a
   * colour name. The text is kept whole in every case.
   */
  function ClassifyColor(colorClass: Option<string>): (k: ColorClass)
    ensures k.NoColor? <==> colorClass.None?
    ensures k.ThemeToken? <==> colorClass.Some? && StartsWith(colorClass.value, "-fx-")
    ensures k.HexColor? <==> colorClass.Some? && StartsWith(colorClass.value, "#")
    ensures !k.NoColor? ==> k.text == colorClass.value
  {
    match colorClass
    case None => NoColor
    case Some(s) =>
      if StartsWith(s, "-fx-") then
        assert s[..4][0] == s[0] && s[..1][0] == s[0]; // a "-fx-" text does not start with "#"
        ThemeToken(s)
      else if StartsWith(s, "#") then HexColor(s)
      else NamedColor(s)
  }

  // ---------------------------------------------------------------------------
  // The theme stylesheet

  /** One declaration of a rule: its property and the colour ColorConverter makes of its value, if any. */
  datatype Declaration = Declaration(property: string, color: Option<Color>)

  /** A rule of the stylesheet, as its declarations in order. */
  type Rule = seq<Declaration>

  /** The index of the first declaration whose property equals the given one, if any. */
  function FirstDeclaration(decls: seq<Declaration>, property: string): (r: Option<nat>)
    ensures r.Some? ==> r.value < |decls| && decls[r.value].property == property
    ensures r.Some? ==> forall j :: 0 <= j < r.value ==> decls[j].property != property
    ensures r.None? ==> forall j :: 0 <= j < |decls| ==> decls[j].property != property
  {
    if decls == [] then None
    else if decls[0].property == property then Some(0)
    else match FirstDeclaration(decls[1..], property)
      case None => None
      case Some(i) => Some(i + 1)
  }

  /**
   * The colour applyThemeColor finds for a token: that of the first matching
   * declaration of the FIRST rule (.root). No rule, no matching declaration or
   * a value that is not a colour give none; the source swallows the exception
   * or skips the null colour.
   */
  function ThemeColor(rules: seq<Rule>, property: string): (r: Option<Color>)
    ensures rules == [] ==> r.None?
    ensures rules != [] && FirstDeclaration(rules[0], property).None? ==> r.None?
  {
    if rules == [] then None
    else match FirstDeclaration(rules[0], property)
      case None => None
      case Some(i) => rules[0][i].color
  }

  /** The theme colour of a token is that of the first declaration with this property in the first rule. */
  lemma ThemeColorIsFirstMatch(rules: seq<Rule>, property: string, i: nat)
    requires rules != [] && i < |rules[0]| && rules[0][i].property == property
    requires forall j :: 0 <= j < i ==> rules[0][j].property != property
    ensures ThemeColor(rules, property) == rules[0][i].color
  {
    assert FirstDeclaration(rules[0], property) == Some(i);
  }

  // ---------------------------------------------------------------------------
  // The root element

  /** The attributes of the root element, by name. */
  type Attributes = map<string, string>

  /**
   * A parsed SVG resource: the attributes of its document element, and whether
   * getElementsByTagName("svg").item(0) is that element as an SVG element (when
   * it is not, the colour methods throw and swallow the exception).
   */
  datatype SvgSource = SvgSource(attributes: Attributes, svgRoot: bool)

  /** The attributes after a colour is applied: fill, and stroke when fillStroke is set. */
  function Colored(attrs: Attributes, svgRoot: bool, color: string, fillStroke: bool): (r: Attributes)
    ensures !svgRoot ==> r == attrs
    ensures svgRoot ==> "fill" in r && r["fill"] == color
    ensures svgRoot && fillStroke ==> "stroke" in r && r["stroke"] == color
    ensures r.Keys == attrs.Keys + (if svgRoot then {"fill"} + (if fillStroke then {"stroke"} else {}) else {})
    ensures forall k :: k in attrs && k != "fill" && (k != "stroke" || !fillStroke) ==> r[k] == attrs[k]
  {
    if !svgRoot then attrs
    else if fillStroke then attrs["fill" := color]["stroke" := color]
    else attrs["fill" := color]
  }

  /** The document root that loadSvgImage edits before transcoding. */
  class SvgRoot {
    var attributes: Attributes
    const svgRoot: bool

    constructor (source: SvgSource)
      ensures attributes == source.attributes && svgRoot == source.svgRoot
    {
      attributes := source.attributes;
      svgRoot := source.svgRoot;
    }

    /** Element.setAttribute. */
    method SetAttribute(name: string, value: string)
      modifies this
      ensures attributes == old(attributes)[name := value]
    {
      attributes := attributes[name := value];
    }

    /** applyHexColor: fill, and stroke when fillStroke is set; a missing <svg> element is swallowed. */
    method ApplyHexColor(hexColor: string, fillStroke: bool)
      modifies this
      ensures attributes == Colored(old(attributes), svgRoot, hexColor, fillStroke)
    {
      if svgRoot {
        SetAttribute("fill", hexColor);
        if fillStroke {
          SetAttribute("stroke", hexColor);
        }
      }
    }

    /** applyThemeColor: the theme colour of the token, as hex text; nothing when there is none. */
    method ApplyThemeColor(property: string, theme: seq<Rule>, fillStroke: bool)
      modifies this
      ensures ThemeColor(theme, property).None? ==> attributes == old(attributes)
      ensures ThemeColor(theme, property).Some? ==>
                attributes == Colored(old(attributes), svgRoot, ToHexString(ThemeColor(theme, property).value), fillStroke)
    {
      var color := ThemeColor(theme, property);
      if color.Some? {
        var colorString := ToHexString(color.value);
        if svgRoot {
          SetAttribute("fill", colorString);
          if fillStroke {
            SetAttribute("stroke", colorString);
          }
        }
      }
    }
  }

  // ---------------------------------------------------------------------------
  // Loading an SVG

  /**
   * What loadSvgImage depends on besides its arguments: the parsed bundled
   * resources by path (a missing or unreadable one throws IOException),
   * the rules of the theme stylesheet, Color.web (None when it throws
   * IllegalArgumentException), and whether the transcoder accepts a document.
   */
  datatype Env = Env(resources: map<string, SvgSource>, theme: seq<Rule>,
                     webColor: string -> Option<Color>, transcodes: Attributes -> bool)

  /** The failures loadSvgImage lets escape; none of them is swallowed. */
  datatype LoadError = ResourceError | InvalidColor | TranscodeError

  /**
   * The transcoded picture: the root attributes it was made from and the box
   * handed to BufferedImageTranscoder(width, height). How the transcoder fits
   * the drawing into that box is not part of this model.
   */
  datatype Image = Raster(attributes: Attributes, width: int, height: int)

  /** The text of a pixel size: the decimal int followed by "px". */
  function Px(n: int): string {
    DecimalString(n) + "px"
  }

  /**
   * The root attributes after the colour step of loadSvgImage. Only a colour
   * name that Color.web rejects fails; without an <svg> root, or without a
   * colour, the attributes stay as the resource had them.
   */
  function Recolor(source: SvgSource, color: ColorClass, fillStroke: bool, env: Env): (r: Result<Attributes, LoadError>)
    ensures r.Failure? <==> color.NamedColor? && env.webColor(color.text).None?
    ensures r.Failure? ==> r.error == InvalidColor
    ensures r.Success? && (!source.svgRoot || color.NoColor?) ==> r.value == source.attributes
    ensures r.Success? && source.svgRoot && color.HexColor? ==> "fill" in r.value && r.value["fill"] == color.text
  {
    match color
    case NoColor => Success(source.attributes)
    case ThemeToken(token) =>
      Success(match ThemeColor(env.theme, token)
              case None => source.attributes
              case Some(c) => Colored(source.attributes, source.svgRoot, ToHexString(c), fillStroke))
    case HexColor(hex) => Success(Colored(source.attributes, source.svgRoot, hex, fillStroke))
    case NamedColor(name) =>
      match env.webColor(name)
      case None => Failure(InvalidColor)
      case Some(c) => Success(Colored(source.attributes, source.svgRoot, ToHexString(c), fillStroke))
  }

  /** The root attributes with the box written on them as "<width>px" and "<height>px". */
  function Sized(attrs: Attributes, width: int, height: int): Attributes {
    attrs["width" := Px(width)]["height" := Px(height)]
  }

  /**
   * loadSvgImage(url, colorClass, fillStroke, width, height): a picture is
   * only ever made from a document the transcoder accepted, at the box asked
   * for.
   */
  function LoadSvg(url: string, colorClass: Option<string>, fillStroke: bool,
                   width: int, height: int, env: Env): (r: Result<Image, LoadError>)
    ensures r.Success? ==> url in env.resources && env.transcodes(r.value.attributes)
    ensures r.Success? ==> r.value.width == width && r.value.height == height
    ensures r.Success? ==> "width" in r.value.attributes && "height" in r.value.attributes
  {
    if url !in env.resources then Failure(ResourceError)
    else
      match Recolor(env.resources[url], ClassifyColor(colorClass), fillStroke, env)
      case Failure(e) => Failure(e)
      case Success(colored) =>
        var sized := Sized(colored, width, height);
        if env.transcodes(sized) then Success(Raster(sized, width, height))
        else Failure(TranscodeError)
  }

  /** Every loaded picture was handed to the transcoder with the requested box, written as "<width>px" and "<height>px" on the root. */
  lemma LoadedHasRequestedSize(url: string, colorClass: Option<string>, fillStroke: bool,
                               width: int, height: int, env: Env)
    ensures var r := LoadSvg(url, colorClass, fillStroke, width, height, env);
      r.Success? ==>
        && r.value.width == width && r.value.height == height
        && "width" in r.value.attributes && "height" in r.value.attributes
        && r.value.attributes["width"] == DecimalString(width) + "px"
        && r.value.attributes["height"] == DecimalString(height) + "px"
        && ParseDecimal(r.value.attributes["width"][..|r.value.attributes["width"]| - 2]) == width
        && ParseDecimal(r.value.attributes["height"][..|r.value.attributes["height"]| - 2]) == height
  {
    var w, h := Px(width), Px(height);
    assert w[..|w| - 2] == DecimalString(width);
    assert h[..|h| - 2] == DecimalString(height);
    DecimalStringRoundTrip(width);
    DecimalStringRoundTrip(height);
  }

  /**
   * loadSvgImage fails exactly when the resource cannot be read, the colour
   * name is not a colour, or the transcoder refuses the document; the failure
   * is reported, never turned into a picture, and a picture is made exactly
   * from the recoloured, sized document the transcoder accepted.
   */
  lemma LoadFailsOnlyAsReported(url: string, colorClass: Option<string>, fillStroke: bool,
                                width: int, height: int, env: Env)
    ensures var r := LoadSvg(url, colorClass, fillStroke, width, height, env);
      && (r == Failure(ResourceError) <==> url !in env.resources)
      && (r == Failure(InvalidColor) <==>
            url in env.resources && ClassifyColor(colorClass).NamedColor?
            && env.webColor(colorClass.value).None?)
      && (r == Failure(TranscodeError) <==>
            url in env.resources
            && Recolor(env.resources[url], ClassifyColor(colorClass), fillStroke, env).Success?
            && !env.transcodes(Sized(Recolor(env.resources[url], ClassifyColor(colorClass), fillStroke, env).value,
                                     width, height)))
      && (r.Success? ==>
            url in env.resources
            && Recolor(env.resources[url], ClassifyColor(colorClass), fillStroke, env).Success?
            && r.value.attributes
               == Sized(Recolor(env.resources[url], ClassifyColor(colorClass), fillStroke, env).value, width, height)
            && env.transcodes(r.value.attributes))
  {
  }

  /**
   * The colour reaches the root as the source applies it: a "#" text as it
   * is, a theme token or a colour name as toHexString of its colour; no colour
   * leaves fill and stroke as the resource had them. Stroke changes only when
   * fillStroke is set, and all other attributes but the size stay as they were.
   */
  lemma LoadedColorAttributes(url: string, colorClass: Option<string>, fillStroke: bool,
                              width: int, height: int, env: Env)
    requires url in env.resources && env.resources[url].svgRoot
    ensures var r := LoadSvg(url, colorClass, fillStroke, width, height, env);
      var attrs := env.resources[url].attributes;
      r.Success? ==>
        var out := r.value.attributes;
        && (forall k :: k in attrs && k != "fill" && k != "stroke" && k != "width" && k != "height"
              ==> k in out && out[k] == attrs[k])
        && (!fillStroke ==>
              ("stroke" in out <==> "stroke" in attrs) && ("stroke" in attrs ==> out["stroke"] == attrs["stroke"]))
        && (colorClass.None? ==>
              ("fill" in out <==> "fill" in attrs) && ("fill" in attrs ==> out["fill"] == attrs["fill"]))
        && (ClassifyColor(colorClass).HexColor? ==>
              "fill" in out && out["fill"] == colorClass.value
              && (fillStroke ==> "stroke" in out && out["stroke"] == colorClass.value))
        && (ClassifyColor(colorClass).NamedColor? ==>
              "fill" in out && out["fill"] == ToHexString(env.webColor(colorClass.value).value))
        && (ClassifyColor(colorClass).ThemeToken? && ThemeColor(env.theme, colorClass.value).Some? ==>
              "fill" in out && out["fill"] == ToHexString(ThemeColor(env.theme, colorClass.value).value))
  {
  }

  /** A theme token with no colour in the first rule leaves the document as the resource had it. */
  lemma UnknownThemeTokenChangesNothing(url: string, token: string, fillStroke: bool,
                                        width: int, height: int, env: Env)
    requires url in env.resources && StartsWith(token, "-fx-")
    requires ThemeColor(env.theme, token).None?
    ensures LoadSvg(url, Some(token), fillStroke, width, height, env)
            == LoadSvg(url, None, fillStroke, width, height, env)
  {
  }

  // ---------------------------------------------------------------------------
  // The loader and its overloads

  /** The fixed size of the overloads that take none. */
  const DefaultSize := 300

  class SvgLoader {
    constructor ()
    {
    }

    /** loadSvgImage(url, colorClass, fillStroke, width, height). */
    method LoadSvgImage(url: string, colorClass: Option<string>, fillStroke: bool,
                        width: int, height: int, env: Env)
      returns (r: Result<Image, LoadError>)
      ensures r == LoadSvg(url, colorClass, fillStroke, width, height, env)
    {
      if url !in env.resources {
        return Failure(ResourceError);
      }
      var root := new SvgRoot(env.resources[url]);
      if colorClass.Some? {
        var color := colorClass.value;
        if StartsWith(color, "-fx-") {
          root.ApplyThemeColor(color, env.theme, fillStroke);
        } else if StartsWith(color, "#") {
          root.ApplyHexColor(color, fillStroke);
        } else {
          var parsed := env.webColor(color);
          if parsed.None? {
            return Failure(InvalidColor);
          }
          root.ApplyHexColor(ToHexString(parsed.value), fillStroke);
        }
      }
      root.SetAttribute("width", DecimalString(width) + "px");
      root.SetAttribute("height", DecimalString(height) + "px");
      if !env.transcodes(root.attributes) {
        return Failure(TranscodeError);
      }
      return Success(Raster(root.attributes, width, height));
    }

    /** loadSvgImage(url, fillStroke, width, height): no colour. */
    method LoadSvgImageSized(url: string, fillStroke: bool, width: int, height: int, env: Env)
      returns (r: Result<Image, LoadError>)
      ensures r == LoadSvg(url, None, fillStroke, width, height, env)
    {
      r := LoadSvgImage(url, None, fillStroke, width, height, env);
    }

    /** loadSvgImage(url): no colour, no stroke, 300 x 300. */
    method LoadSvgImagePlain(url: string, env: Env) returns (r: Result<Image, LoadError>)
      ensures r == LoadSvg(url, None, false, 300, 300, env)
    {
      r := LoadSvgImage(url, None, false, DefaultSize, DefaultSize, env);
    }

    /** loadSvgImage(url, colorClass, fillStroke): 300 x 300. */
    method LoadSvgImageColored(url: string, colorClass: Option<string>, fillStroke: bool, env: Env)
      returns (r: Result<Image, LoadError>)
      ensures r == LoadSvg(url, colorClass, fillStroke, 300, 300, env)
    {
      r := LoadSvgImage(url, colorClass, fillStroke, DefaultSize, DefaultSize, env);
    }

    /** loadSvgImage(url, fillStroke): no colour, 300 x 300. */
    method LoadSvgImageStroked(url: string, fillStroke: bool, env: Env) returns (r: Result<Image, LoadError>)
      ensures r == LoadSvg(url, None, fillStroke, 300, 300, env)
    {
      r := LoadSvgImageColored(url, None, fillStroke, env);
    }

    /** loadSvgImage(url, colorClass): no stroke, 300 x 300. */
    method LoadSvgImageTinted(url: string, colorClass: Option<string>, env: Env)
      returns (r: Result<Image, LoadError>)
      ensures r == LoadSvg(url, colorClass, false, 300, 300, env)
    {
      r := LoadSvgImage(url, colorClass, false, DefaultSize, DefaultSize, env);
    }
  }

  /** The static field that holds the shared loader, null until the first getInstance. */
  class LoaderRegistry {
    var loader: SvgLoader?

    constructor ()
      ensures loader == null
    {
      loader := null;
    }

    /** getInstance: creates the loader on the first call, returns the same one on every later call. */
    method GetInstance() returns (l: SvgLoader)
      modifies this
      ensures old(loader) == null ==> fresh(l)
      ensures old(loader) != null ==> l == old(loader)
      ensures loader == l
    {
      if loader == null {
        loader := new SvgLoader();
      }
      l := loader;
    }
  }

  /** Two calls of getInstance give the same loader. */
  method GetInstanceTwice(registry: LoaderRegistry) returns (first: SvgLoader, second: SvgLoader)
    modifies registry
    ensures first == second && registry.loader == first
    ensures old(registry.loader) == null ==> fresh(first)
    ensures old(registry.loader) != null ==> first == old(registry.loader)
  {
    first := registry.GetInstance();
    second := registry.GetInstance();
  }

  // ---------------------------------------------------------------------------
  // Bootstrap icons

  const IconDirectory := "/images/application/icons/svg/bi/"

  /** The resource of a Bootstrap icon: "/images/application/icons/svg/bi/bi-" + name + ".svg". */
  function BiPath(name: string): (path: string)
    ensures |path| == |IconDirectory| + |name| + 7
    ensures path[..|IconDirectory|] == IconDirectory && path[|IconDirectory|..|IconDirectory| + 3] == "bi-"
    ensures path[|IconDirectory| + 3..|path| - 4] == name && path[|path| - 4..] == ".svg"
  {
    IconDirectory + "bi-" + name + ".svg"
  }

  /** Different names give different resources. */
  lemma BiPathInjective(a: string, b: string)
    ensures BiPath(a) == BiPath(b) ==> a == b
  {
    var p := IconDirectory + "bi-";
    if BiPath(a) == BiPath(b) {
      var x, y := BiPath(a), BiPath(b);
      assert a == x[|p|..|x| - 4];
      assert b == y[|p|..|y| - 4];
    }
  }

  /** Different icons of the enumeration are read from different resources. */
  lemma IconPathsDistinct(a: BiIcons.Bi, b: BiIcons.Bi)
    ensures BiPath(a.Icon()) == BiPath(b.Icon()) ==> a == b
  {
    BiPathInjective(a.Icon(), b.Icon());
    BiIcons.IconInjective(a, b);
  }

  /** bi(name, colorClass, fillStroke, width, height): the icon through the shared loader. */
  method BiImage(registry: LoaderRegistry, name: string, colorClass: Option<string>, fillStroke: bool,
                 width: int, height: int, env: Env) returns (r: Result<Image, LoadError>)
    modifies registry
    ensures r == LoadSvg(BiPath(name), colorClass, fillStroke, width, height, env)
    ensures registry.loader != null
    ensures old(registry.loader) == null ==> fresh(registry.loader)
    ensures old(registry.loader) != null ==> registry.loader == old(registry.loader)
  {
    var loader := registry.GetInstance();
    r := loader.LoadSvgImage(BiPath(name), colorClass, fillStroke, width, height, env);
  }

  /**
   * The Java cast (int) of a double: toward zero, saturating at the int range.
   * NaN and the infinities are not modelled (a real has neither).
   */
  function IntCast(x: real): (n: int)
    ensures -0x8000_0000 <= n < 0x8000_0000
    ensures 0.0 <= x < 0x8000_0000 as real ==> 0 <= n && n as real <= x < n as real + 1.0
    ensures -0x8000_0000 as real <= x < 0.0 ==> n <= 0 && n as real - 1.0 < x <= n as real
    ensures x >= 0x8000_0000 as real ==> n == 0x7FFF_FFFF
    ensures x < -0x8000_0000 as real ==> n == -0x8000_0000
  {
    if x >= 0x8000_0000 as real then 0x7FFF_FFFF
    else if x < -0x8000_0000 as real then -0x8000_0000
    else if x >= 0.0 then x.Floor
    else -((-x).Floor)
  }

  /** bi(name, colorClass, fillStroke, double width, double height): the box cast to int. */
  method BiImageReal(registry: LoaderRegistry, name: string, colorClass: Option<string>, fillStroke: bool,
                     width: real, height: real, env: Env) returns (r: Result<Image, LoadError>)
    modifies registry
    ensures r == LoadSvg(BiPath(name), colorClass, fillStroke, IntCast(width), IntCast(height), env)
    ensures registry.loader != null
    ensures old(registry.loader) == null ==> fresh(registry.loader)
    ensures old(registry.loader) != null ==> registry.loader == old(registry.loader)
  {
    r := BiImage(registry, name, colorClass, fillStroke, IntCast(width), IntCast(height), env);
  }

  /** bi(name, colorClass, double width, double height): no stroke, the box cast to int. */
  method BiImageRealPlain(registry: LoaderRegistry, name: string, colorClass: Option<string>,
                          width: real, height: real, env: Env) returns (r: Result<Image, LoadError>)
    modifies registry
    ensures r == LoadSvg(BiPath(name), colorClass, false, IntCast(width), IntCast(height), env)
    ensures registry.loader != null
    ensures old(registry.loader) == null ==> fresh(registry.loader)
    ensures old(registry.loader) != null ==> registry.loader == old(registry.loader)
  {
    r := BiImage(registry, name, colorClass, false, IntCast(width), IntCast(height), env);
  }

  /** bi(name, colorClass, fillStroke): 300 x 300. */
  method BiImageDefaultSize(registry: LoaderRegistry, name: string, colorClass: Option<string>,
                            fillStroke: bool, env: Env) returns (r: Result<Image, LoadError>)
    modifies registry
    ensures r == LoadSvg(BiPath(name), colorClass, fillStroke, 300, 300, env)
    ensures registry.loader != null
    ensures old(registry.loader) == null ==> fresh(registry.loader)
    ensures old(registry.loader) != null ==> registry.loader == old(registry.loader)
  {
    r := BiImage(registry, name, colorClass, fillStroke, DefaultSize, DefaultSize, env);
  }

  /** bi(name, colorClass): no stroke, 300 x 300. */
  method BiImagePlain(registry: LoaderRegistry, name: string, colorClass: Option<string>, env: Env)
    returns (r: Result<Image, LoadError>)
    modifies registry
    ensures r == LoadSvg(BiPath(name), colorClass, false, 300, 300, env)
    ensures registry.loader != null
    ensures old(registry.loader) == null ==> fresh(registry.loader)
    ensures old(registry.loader) != null ==> registry.loader == old(registry.loader)
  {
    r := BiImageDefaultSize(registry, name, colorClass, false, env);
  }
}
