# svgfx image core, modelled in Dafny

svgfx is a JavaFX library that renders bundled SVG icons to images and loads
remote raster images through a small disk cache. This project models its core
and proves what that core promises:

- `Imagefx`, the remote-image cache. The cache key is the URL with every
  character outside `[a-zA-Z0-9.-]` turned into `_`. The cache file
  `<home>/.imagecache/<key>.png` expires after 24 hours. `loadImage` chooses
  between no image, a cache hit and a download. The asynchronous loaders skip
  some URLs. The default box is 70 × 100. The dominant-colour search
  (`getMostCommonColor`) builds a 2^24-entry histogram over an int pixel array
  and keeps its first maximum.
- `SvgLoader`, the SVG rasteriser:
  - the lazily created shared loader (`getInstance`);
  - the colour argument, either a `-fx-` theme token looked up in the first rule
    of the theme stylesheet, a literal `#` colour, or a colour name;
  - the `fill` and `stroke` attributes of the root `<svg>` element;
  - the `width`/`height` attributes written as `<n>px`;
  - the overloads and their defaults (300 × 300, no colour, no stroke);
  - the `bi` icon path;
  - `toHexString` and `format`.
- `Bi`, the enumeration of 27 Bootstrap icons and their file-name fragments.

The file system, the clock, the HTTP download, the bundled resources, the CSS
parser, `Color.web` and the Batik transcoder are inputs to the model: a map of
files, a time in milliseconds, the outcome a download would have, a map of
parsed SVG roots, a list of stylesheet rules, a partial colour function and a
transcoder verdict.

Files:

- `wrappers.dfy`: `Option` and `Result`.
- `numerals.dfy`: digit strings in bases 2 to 16. These are `Integer.toHexString`
  and the decimal text Java concatenates, with their parsers and round trips.
- `bi_icons.dfy`: the enumeration.
- `imagefx.dfy`: the cache and the histogram.
- `svg_loader.dfy`: the loader.

Where the documented behaviour and the code differ, the model follows the code:

- A null or empty URL makes `loadImage` return null, not the placeholder image
  (`Imagefx.NoUrlNoImage`). The no-argument-size `loadImageAsync` passes that
  null to its callback.
- A colour name that `Color.web` rejects throws `IllegalArgumentException` out
  of `loadSvgImage`, which catches only `IOException`. The model returns
  `Failure(InvalidColor)`.
- A cache file that exists and is fresh is read and used as it is. A failed read
  does not cause a new download.
- `loadImage` can throw. A box that is not positive throws
  `IllegalArgumentException` from `getJavaFXImage`. An undecodable download
  throws `NullPointerException`, and a URL whose scheme is not http or https
  throws `ClassCastException` at the `HttpURLConnection` cast. The sized
  asynchronous loader then never calls back.

## Model

| member | source | states |
|---|---|---|
| Imagefx.CacheKey | src/main/java/com/fluxvend/svgfx/utils/Imagefx.java:123 | the key has the URL's length, keeps every character of `[a-zA-Z0-9.-]` in place and has `_` wherever the URL has any other character |
| Imagefx.CacheKeyIsKey | src/main/java/com/fluxvend/svgfx/utils/Imagefx.java:123 | every key consists of `[a-zA-Z0-9._-]` only |
| Imagefx.CacheKeyFixedPoints | src/main/java/com/fluxvend/svgfx/utils/Imagefx.java:123 | the key of s is s itself exactly when s consists of `[a-zA-Z0-9._-]` |
| Imagefx.CacheKeyIdempotent | src/main/java/com/fluxvend/svgfx/utils/Imagefx.java:123 | sanitising a key again leaves it unchanged |
| Imagefx.CacheKeyCollides | src/main/java/com/fluxvend/svgfx/utils/Imagefx.java:123-124 | two different URLs (`http://a/b`, `http://a?b`) share the key `http___a_b`, so the cache is not injective |
| Imagefx.CachePathSharedIffKeyShared | src/main/java/com/fluxvend/svgfx/utils/Imagefx.java:121-124 | two URLs have the same cache path exactly when they have the same key |
| Imagefx.CacheFileStaysInCacheDir | src/main/java/com/fluxvend/svgfx/utils/Imagefx.java:121-124 | the cache file name is the key plus `.png` and never contains a `/`, so every URL's file lies directly inside `.imagecache` |
| Imagefx.WrapLong | src/main/java/com/fluxvend/svgfx/utils/Imagefx.java:286 | a long subtraction that does not overflow gives the exact difference |
| Imagefx.ExpiredIffOlderThanADay | src/main/java/com/fluxvend/svgfx/utils/Imagefx.java:285-288 | `IsCacheExpired`: for non-negative clock readings, a file is expired exactly when it is more than 86 400 000 ms old |
| Imagefx.ExactlyOneDayIsFresh | src/main/java/com/fluxvend/svgfx/utils/Imagefx.java:285-288 | a file exactly 24 h old is fresh and one 1 ms older is expired (strict `>`) |
| Imagefx.Decide | src/main/java/com/fluxvend/svgfx/utils/Imagefx.java:116-134 | no image exactly for a null or empty URL; a cache hit only on an existing, unexpired file; both other choices use the URL's cache path |
| Imagefx.JavaFXImage | src/main/java/com/fluxvend/svgfx/utils/Imagefx.java:298-320 | a box that is not positive throws `IllegalArgumentException`, and only such a box does; otherwise null bytes give the placeholder and only they do, bytes give an image of those bytes, and the image has the requested box |
| Imagefx.LoadImage | src/main/java/com/fluxvend/svgfx/utils/Imagefx.java:116-134 | only the URL's cache file can change; a returned image has the requested box; `IllegalArgumentException` escapes only for a box that is not positive; any other exception is the one the download let through, and then nothing was stored |
| Imagefx.LoadImageDefault | src/main/java/com/fluxvend/svgfx/utils/Imagefx.java:61-63 | the 70 × 100 box is valid: null exactly for a null or empty URL, every image is 70 × 100, and the only exceptions are those the download let through, with nothing stored |
| Imagefx.NoUrlNoImage | src/main/java/com/fluxvend/svgfx/utils/Imagefx.java:118-120 | a null or empty URL gives null and leaves the cache untouched, whatever the download would do |
| Imagefx.CacheUsedIffPresentAndFresh | src/main/java/com/fluxvend/svgfx/utils/Imagefx.java:126-133 | a fresh existing file is served byte for byte with nothing written; otherwise a failed download gives the placeholder, one that throws (`NullPointerException` for an undecodable response, `ClassCastException` for a non-HTTP URL) passes its exception on and stores nothing, and a decoded one is written to the cache file when writing succeeded, whatever the box; a box that is not positive throws `IllegalArgumentException` on every path but the download that throws |
| Imagefx.StoredDownloadServedForADay | src/main/java/com/fluxvend/svgfx/utils/Imagefx.java:127-133 | cache round trip: bytes a download wrote at time s are served from the cache by every load of that URL up to 24 h after s, with no download; a valid box gets those bytes, any other box throws `IllegalArgumentException` |
| Imagefx.StoredDownloadRefetchedAfterADay | src/main/java/com/fluxvend/svgfx/utils/Imagefx.java:127 | more than 24 h after it was stored, the same cache file is fetched again |
| Imagefx.BlankConcat | src/main/java/com/fluxvend/svgfx/utils/Imagefx.java:75 | `StringUtils.isBlank`: a text is blank exactly when both of its parts are |
| Imagefx.BlankExamples | src/main/java/com/fluxvend/svgfx/utils/Imagefx.java:75 | null, empty, and `\t\n\r`/ideographic space are blank; a letter, the no-break space U+00A0 and the text "null" are not |
| Imagefx.RunTask | src/main/java/com/fluxvend/svgfx/utils/Imagefx.java:74-80 | the pool task calls back exactly when `loadImage` returns; an exception ends it before the callback; the file system is the one `loadImage` left |
| Imagefx.LoadImageAsync | src/main/java/com/fluxvend/svgfx/utils/Imagefx.java:73-81 | the sized loader returns early exactly for a blank URL or the text "null", and any image it hands the callback is non-null |
| Imagefx.AsyncSkipsBlankUrls | src/main/java/com/fluxvend/svgfx/utils/Imagefx.java:73-81 | no callback for a blank URL or "null"; otherwise the callback runs exactly when `loadImage` returns, with its non-null image, and a thrown exception ends the task without a callback |
| Imagefx.LoadImageAsyncDefault | src/main/java/com/fluxvend/svgfx/utils/Imagefx.java:89-94 | the unsized loader never returns early; its callback gets a 70 × 100 image or null, and the task ends without a callback only with an exception the download let through, with nothing stored |
| Imagefx.AsyncDefaultPassesNull | src/main/java/com/fluxvend/svgfx/utils/Imagefx.java:89-94 | for a null or empty URL the unsized asynchronous loader hands null to its callback |
| Imagefx.Rgb | src/main/java/com/fluxvend/svgfx/utils/Imagefx.java:265 | `pixel & 0x00ffffff` is a valid histogram index below 2^24 |
| Imagefx.RgbIgnoresAlpha | src/main/java/com/fluxvend/svgfx/utils/Imagefx.java:265 | the index of an ARGB int is its RGB value, whatever its alpha byte |
| Imagefx.CountsSumToPixelCount | src/main/java/com/fluxvend/svgfx/utils/Imagefx.java:263-266 | the histogram counts every pixel exactly once: the 2^24 counts sum to the pixel count |
| Imagefx.TwoCountsAtMostAll | src/main/java/com/fluxvend/svgfx/utils/Imagefx.java:263-266 | two different colours together count no more pixels than there are |
| Imagefx.CountsIgnoreAlpha | src/main/java/com/fluxvend/svgfx/utils/Imagefx.java:265 | pixel arrays that agree in RGB, pixel by pixel, have the same counts |
| Imagefx.MostCommonIsUnique | src/main/java/com/fluxvend/svgfx/utils/Imagefx.java:268-275 | with the first maximum kept, at most one colour is the answer |
| Imagefx.MajorityColorIsMostCommon | src/main/java/com/fluxvend/svgfx/utils/Imagefx.java:257-277 | a colour covering more than half of the pixels is the answer |
| Imagefx.NoPixelsGiveZero | src/main/java/com/fluxvend/svgfx/utils/Imagefx.java:268-276 | without pixels the answer is 0 |
| Imagefx.MostCommonColor | src/main/java/com/fluxvend/svgfx/utils/Imagefx.java:257-277 | the result is a 24-bit colour whose count no colour exceeds, strictly larger than that of every smaller colour; 0 for no pixels |
| Numerals.Numeral | src/main/java/com/fluxvend/svgfx/utils/SvgLoader.java:163 | `Integer.toHexString` (and the decimal text): a non-empty digit string of the base, one digit exactly below the base, at most two below base², no leading zero except for 0 |
| Numerals.ParseNumeralOfNumeral | src/main/java/com/fluxvend/svgfx/utils/SvgLoader.java:163 | reading the digit string back gives the number |
| Numerals.DecimalString | src/main/java/com/fluxvend/svgfx/utils/SvgLoader.java:76-77 | Java's decimal text of an int is non-empty and starts with `-` exactly for negatives |
| Numerals.DecimalStringRoundTrip | src/main/java/com/fluxvend/svgfx/utils/SvgLoader.java:76-77 | the decimal text of every int is a well-formed decimal that reads back as that int |
| SvgLoading.Hex02 | src/main/java/com/fluxvend/svgfx/utils/SvgLoader.java:168 | `%02x` gives at least two lowercase hex digits |
| SvgLoading.Hex02RoundTrip | src/main/java/com/fluxvend/svgfx/utils/SvgLoader.java:168 | the `%02x` text reads back as the number |
| SvgLoading.Format | src/main/java/com/fluxvend/svgfx/utils/SvgLoader.java:162-165 | `format` pads a one-digit hex string with `0`: two digits for a channel, and the same text as `%02x` for every non-negative value |
| SvgLoading.ToHexString | src/main/java/com/fluxvend/svgfx/utils/SvgLoader.java:167-172 | the colour text is `#` and six lowercase hex digits |
| SvgLoading.ToHexStringRoundTrip | src/main/java/com/fluxvend/svgfx/utils/SvgLoader.java:167-172 | its three two-digit fields read back as red, green and blue |
| SvgLoading.ClassifyColor | src/main/java/com/fluxvend/svgfx/utils/SvgLoader.java:66-73 | no colour exactly for null; a theme token exactly for a `-fx-` prefix; a literal colour exactly for a `#` prefix; a name otherwise; the text is kept whole |
| SvgLoading.FirstDeclaration | src/main/java/com/fluxvend/svgfx/utils/SvgLoader.java:134-136 | the index of the first declaration with the property, or none when no declaration has it |
| SvgLoading.ThemeColor | src/main/java/com/fluxvend/svgfx/utils/SvgLoader.java:129-149 | only the first rule is searched; an empty stylesheet or a property missing from that rule gives no colour |
| SvgLoading.ThemeColorIsFirstMatch | src/main/java/com/fluxvend/svgfx/utils/SvgLoader.java:133-138 | the colour is that of the first matching declaration of the first rule, whatever later declarations say |
| SvgLoading.Colored | src/main/java/com/fluxvend/svgfx/utils/SvgLoader.java:151-160 | fill is set; stroke is set only with fillStroke; no other attribute changes; without an `<svg>` root nothing changes |
| SvgLoading.Recolor | src/main/java/com/fluxvend/svgfx/utils/SvgLoader.java:66-74 | the colour step fails exactly for a name `Color.web` rejects, as an invalid colour; with no colour or no `<svg>` root the attributes are the resource's; a `#` text becomes the fill |
| SvgLoading.LoadSvg | src/main/java/com/fluxvend/svgfx/utils/SvgLoader.java:57-91 | a picture is made only from a readable resource whose final document the transcoder accepted, with the requested box handed to the transcoder and width and height set on the root |
| SvgLoading.SvgRoot.SetAttribute | src/main/java/com/fluxvend/svgfx/utils/SvgLoader.java:76-77 | the attribute takes the value and the others are unchanged |
| SvgLoading.SvgRoot.ApplyHexColor | src/main/java/com/fluxvend/svgfx/utils/SvgLoader.java:151-160 | the root's new attributes are `Colored` of the old ones with the given text |
| SvgLoading.SvgRoot.ApplyThemeColor | src/main/java/com/fluxvend/svgfx/utils/SvgLoader.java:129-149 | without a theme colour the root is unchanged; with one, its attributes are `Colored` with that colour's `toHexString` |
| SvgLoading.LoadedHasRequestedSize | src/main/java/com/fluxvend/svgfx/utils/SvgLoader.java:57-91 | a loaded picture was transcoded at the box asked for, and the root's width and height read back as the requested ints followed by `px` |
| SvgLoading.LoadFailsOnlyAsReported | src/main/java/com/fluxvend/svgfx/utils/SvgLoader.java:57-91 | a resource failure exactly for a missing resource; an invalid-colour failure exactly for a name `Color.web` rejects; a transcoder failure exactly when the recoloured, sized document is refused; a picture is made exactly from that document when the transcoder accepts it |
| SvgLoading.LoadedColorAttributes | src/main/java/com/fluxvend/svgfx/utils/SvgLoader.java:57-91 | a `#` colour reaches fill as it is, a name or theme token as `toHexString` of its colour; no colour keeps fill; no fillStroke keeps stroke; other attributes are kept |
| SvgLoading.UnknownThemeTokenChangesNothing | src/main/java/com/fluxvend/svgfx/utils/SvgLoader.java:129-149 | a theme token without a colour loads the same picture as no colour |
| SvgLoading.SvgLoader.LoadSvgImage | src/main/java/com/fluxvend/svgfx/utils/SvgLoader.java:57-91 | the imperative load, on a fresh root, gives exactly the result `LoadSvg` specifies |
| SvgLoading.SvgLoader.LoadSvgImageSized | src/main/java/com/fluxvend/svgfx/utils/SvgLoader.java:53-55 | the sized overload loads with no colour |
| SvgLoading.SvgLoader.LoadSvgImagePlain | src/main/java/com/fluxvend/svgfx/utils/SvgLoader.java:93-95 | the url-only overload loads with no colour, no stroke and 300 × 300 |
| SvgLoading.SvgLoader.LoadSvgImageColored | src/main/java/com/fluxvend/svgfx/utils/SvgLoader.java:97-99 | the overload with colour and stroke loads at 300 × 300 |
| SvgLoading.SvgLoader.LoadSvgImageStroked | src/main/java/com/fluxvend/svgfx/utils/SvgLoader.java:101-103 | the stroke-only overload loads with no colour at 300 × 300 |
| SvgLoading.SvgLoader.LoadSvgImageTinted | src/main/java/com/fluxvend/svgfx/utils/SvgLoader.java:105-107 | the colour-only overload loads with no stroke at 300 × 300 |
| SvgLoading.LoaderRegistry.GetInstance | src/main/java/com/fluxvend/svgfx/utils/SvgLoader.java:43-48 | the first call creates a fresh loader and stores it; every later call returns the stored one |
| SvgLoading.GetInstanceTwice | src/main/java/com/fluxvend/svgfx/utils/SvgLoader.java:43-48 | two calls return the same loader: a fresh one if there was none, the stored one otherwise |
| SvgLoading.BiPath | src/main/java/com/fluxvend/svgfx/utils/SvgLoader.java:110 | the path is `/images/application/icons/svg/bi/`, then `bi-`, then the name, then `.svg`, and the name can be read back from between them |
| SvgLoading.BiPathInjective | src/main/java/com/fluxvend/svgfx/utils/SvgLoader.java:110 | different names give different resources |
| SvgLoading.IconPathsDistinct | src/main/java/com/fluxvend/svgfx/icons/Bi.java:22-126 | different constants of the enumeration are read from different resources |
| SvgLoading.BiImage | src/main/java/com/fluxvend/svgfx/utils/SvgLoader.java:109-111 | `bi` loads the icon's resource through the shared loader with the given arguments; the shared loader exists afterwards, fresh if there was none and the same one otherwise |
| SvgLoading.IntCast | src/main/java/com/fluxvend/svgfx/utils/SvgLoader.java:114 | `(int)` of a double rounds toward zero within the int range and saturates outside it |
| SvgLoading.BiImageReal | src/main/java/com/fluxvend/svgfx/utils/SvgLoader.java:113-115 | the double overload loads at the box cast to int; the shared loader exists afterwards, fresh if there was none and the same one otherwise |
| SvgLoading.BiImageRealPlain | src/main/java/com/fluxvend/svgfx/utils/SvgLoader.java:117-119 | the double overload without fillStroke loads with no stroke at the box cast to int; the shared loader exists afterwards, fresh if there was none and the same one otherwise |
| SvgLoading.BiImageDefaultSize | src/main/java/com/fluxvend/svgfx/utils/SvgLoader.java:121-123 | `bi(name, colour, fillStroke)` loads at 300 × 300; the shared loader exists afterwards, fresh if there was none and the same one otherwise |
| SvgLoading.BiImagePlain | src/main/java/com/fluxvend/svgfx/utils/SvgLoader.java:125-127 | `bi(name, colour)` loads with no stroke at 300 × 300; the shared loader exists afterwards, fresh if there was none and the same one otherwise |
| BiIcons.IconIsKebabCaseOfName | src/main/java/com/fluxvend/svgfx/icons/Bi.java:22-126 | every constant's fragment is its name lowercased with `_` turned into `-` |
| BiIcons.KebabCase | src/main/java/com/fluxvend/svgfx/icons/Bi.java:22-126 | the conversion turns a constant name into a file-name fragment |
| BiIcons.IconIsFragment | src/main/java/com/fluxvend/svgfx/icons/Bi.java:22-126 | every fragment consists of lowercase letters and hyphens |
| BiIcons.FromIconOfIcon | src/main/java/com/fluxvend/svgfx/icons/Bi.java:22-135 | `getIcon` has a left inverse, so a fragment determines its constant |
| BiIcons.IconInjective | src/main/java/com/fluxvend/svgfx/icons/Bi.java:22-126 | different constants have different fragments |
| BiIcons.ValuesListsEveryConstant | src/main/java/com/fluxvend/svgfx/icons/Bi.java:18-127 | the enumeration has 27 constants, each listed at its ordinal |
| BiIcons.OrdinalOfValues | src/main/java/com/fluxvend/svgfx/icons/Bi.java:18-127 | the constant at each position has that position as its ordinal |
| BiIcons.ValuesDistinct | src/main/java/com/fluxvend/svgfx/icons/Bi.java:18-127 | no constant is listed twice |

## Left out

- The HTTP download, `ImageIO` decoding and encoding, `compressImage` and the
  file writes are not modelled step by step. A download is an input outcome.
  It is one of three cases:
  - an `IOException`, giving no bytes;
  - an unchecked exception that `downloadImage` does not catch, thrown before
    anything is written: `NullPointerException` when `ImageIO` cannot decode
    the response and `compressImage` gets its null image, or
    `ClassCastException` when the URL's scheme is not http or https. Which
    exception a URL leads to is part of the input outcome; the URL syntax
    `new URL` accepts is not modelled;
  - re-encoded bytes, plus the modification time the cache file got if writing
    it succeeded.

  That time is an input. It is not tied to the `now` of the expiry check, only
  assumed to be no earlier where a lemma needs that. A write that fails after
  opening the file, leaving a truncated file behind, is not modelled.
- `scaleImage`, `getScaleFactor`, `fillImage` and the centring offsets work on
  doubles and AWT graphics. They are left out. Only the box the image is given
  is modelled.
- Imagefx.JavaFXImage: models the `IllegalArgumentException` of
  `new WritableImage` for a box that is not positive. Decoding is assumed to
  succeed otherwise. It leaves out three things:
  - a cache file that `ImageIO` cannot decode (corrupted outside the program)
    would make `scaleImage` throw `NullPointerException`;
  - the swallowed `IOException`/`IllegalArgumentException` that leaves a blank
    image;
  - running out of memory for a huge box.
- `readBytesFromFile`: its short read and the `(int)` cast of a file longer
  than 2 GiB are not modelled. The cached record is read whole.
- The executor's five threads, the order in which callbacks run and races on
  the cache directory are left out. An asynchronous call is modelled by its
  outcome: no callback (early return), a callback with an image or null, or an
  exception that ends the pool task before the callback.
- `System.getProperty("user.home")` and `currentTimeMillis` are parameters.
  The path separator is written as `/`. Creating the cache directory with
  `mkdirs` is left out, because the file system is a map that holds files only.
- Imagefx.CachePathSharedIffKeyShared: the file system is modelled as
  case-sensitive, keyed by the exact path. On a case-insensitive file system
  (the defaults of macOS and Windows) `http://x/A.png` and `http://x/a.png`
  have different keys but one cache file, so one URL's load can serve or
  overwrite the other's bytes.
- Imagefx.LoadImage: the promise that only the URL's own cache file changes
  holds on case-sensitive file systems only, for the same reason.
- Imagefx.MostCommonColor: `width * height` overflowing a Java int is not
  modelled. The pixels are given as an array of any length.
- Imagefx.CacheKey: works per Unicode scalar value. A string with a lone
  surrogate cannot be expressed.
- `loadSvg` and the widgets `BootstrapIcon` and `SvgImageView` (debounce,
  bindings, UI thread) are not part of this model.
- The XML parser, the CSS parser, `ColorConverter` and `Color.web` are inputs.
  Parsed resources are their root attributes plus whether the first `<svg>`
  element is the root. A first `<svg>` element that is not the root is not
  modelled. The theme stylesheet is its list of rules. A declaration's colour
  is what the converter would make of it.
- `BufferedImageTranscoder` and `SwingFXUtils` are not part of this model. The
  transcoder is a verdict on the final attributes. A picture is those
  attributes plus the box handed to the transcoder. How the transcoder fits the
  drawing into that box, and the size of the image it produces, are not
  modelled.
- SvgLoading.ToHexString: takes integer channels. The `(int) (255 * c)`
  truncation from JavaFX's double channels is not modelled.
- SvgLoading.Format: takes the already rounded non-negative int.
  `Math.round(val * 255)` and the eight-digit hex text of negative ints are not
  modelled.
- SvgLoading.IntCast: NaN and the infinities are not modelled, because a real
  has neither.
- Logging is left out.
