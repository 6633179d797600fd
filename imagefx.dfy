/**
 * The decision logic of the remote-image cache in Imagefx: the cache key made
 * from a URL, the 24-hour expiry, the choice between no image, a cache hit and
 * a download, the guard of the asynchronous loaders, and the dominant-colour
 * histogram used to pad rescaled images.
 *
 * The file system, the clock and the HTTP download are inputs: a map from
 * paths to cached files, the current time in milliseconds, and the outcome the
 * download would have.
 */
module Imagefx {
  import opened Wrappers
  import opened Numerals

  type Bytes = seq<bv8>

  // ---------------------------------------------------------------------------
  // Cache key and cache file

  /** The characters the key keeps: [a-zA-Z0-9.-]. */
  predicate IsKeepChar(c: char) {
    'a' <= c <= 'z' || 'A' <= c <= 'Z' || '0' <= c <= '9' || c == '.' || c == '-'
  }

  /** The characters a key can contain: the kept ones and the replacement '_'. */
  predicate IsKeyChar(c: char) {
    IsKeepChar(c) || c == '_'
  }

  predicate IsKey(s: string) {
    forall i :: 0 <= i < |s| ==> IsKeyChar(s[i])
  }

  /**
   * The cache key: the URL with every character outside [a-zA-Z0-9.-] replaced
   * by '_' (replaceAll("[^a-zA-Z0-9.-]", "_")), one character per code point.
   */
  function CacheKey(url: string): (key: string)
    ensures |key| == |url|
    ensures forall i :: 0 <= i < |url| && IsKeepChar(url[i]) ==> key[i] == url[i]
    ensures forall i :: 0 <= i < |url| && !IsKeepChar(url[i]) ==> key[i] == '_'
  {
    if url == [] then []
    else
      var last := url[|url| - 1];
      CacheKey(url[..|url| - 1]) + [if IsKeepChar(last) then last else '_']
  }

  /** A key contains only [a-zA-Z0-9._-]. */
  lemma CacheKeyIsKey(url: string)
    ensures IsKey(CacheKey(url))
  {
  }

  /** CacheKey leaves exactly the strings over [a-zA-Z0-9._-] unchanged. */
  lemma CacheKeyFixedPoints(s: string)
    ensures CacheKey(s) == s <==> IsKey(s)
  {
    var key := CacheKey(s);
    if IsKey(s) {
      assert forall i :: 0 <= i < |s| ==> key[i] == s[i];
    } else {
      var i :| 0 <= i < |s| && !IsKeyChar(s[i]);
      assert key[i] != s[i];
    }
  }

  /** Sanitising a key again changes nothing. */
  lemma CacheKeyIdempotent(url: string)
    ensures CacheKey(CacheKey(url)) == CacheKey(url)
  {
    CacheKeyIsKey(url);
    CacheKeyFixedPoints(CacheKey(url));
  }

  /** Two different URLs can share a cache file: the key is not injective. */
  lemma CacheKeyCollides()
    ensures CacheKey("http://a/b") == CacheKey("http://a?b") == "http___a_b"
  {
  }

  /** The cache directory below the user's home directory. */
  const CacheDirName := ".imagecache"

  /** The name of the cache file of a URL: its key followed by ".png". */
  function CacheFileName(url: string): string {
    CacheKey(url) + ".png"
  }

  /**
   * The file name never contains a separator and always ends in ".png", so it
   * is never "." or "..": every URL's file lies directly inside the cache
   * directory.
   */
  lemma CacheFileStaysInCacheDir(url: string)
    ensures var name := CacheFileName(url);
      |name| == |url| + 4 && name[|name| - 4..] == ".png"
      && forall i :: 0 <= i < |name| ==> name[i] != '/'
  {
    var name := CacheFileName(url);
    CacheKeyIsKey(url);
    assert name[|name| - 4..] == ".png";
    forall i | 0 <= i < |name|
      ensures name[i] != '/'
    {
      if i < |url| {
        assert name[i] == CacheKey(url)[i];
      } else {
        assert name[i] == ".png"[i - |url|];
      }
    }
  }

  /** The path of the cache file, with '/' as the separator. */
  function CachePath(home: string, url: string): string {
    home + "/" + CacheDirName + "/" + CacheFileName(url)
  }

  /** The file name is the key and ".png", so two URLs share a file exactly when they share a key. */
  lemma CachePathSharedIffKeyShared(home: string, u: string, v: string)
    ensures CachePath(home, u) == CachePath(home, v) <==> CacheKey(u) == CacheKey(v)
  {
    var p := home + "/" + CacheDirName + "/";
    if CachePath(home, u) == CachePath(home, v) {
      var a, b := CachePath(home, u), CachePath(home, v);
      assert a == p + CacheKey(u) + ".png";
      assert b == p + CacheKey(v) + ".png";
      assert CacheKey(u) == a[|p|..|a| - 4];
      assert CacheKey(v) == b[|p|..|b| - 4];
    }
  }

  // ---------------------------------------------------------------------------
  // Expiry

  /** Java's 64-bit long. */
  type Long = x: int | -0x8000_0000_0000_0000 <= x < 0x8000_0000_0000_0000

  /** An int reduced to a long with two's-complement wrap-around. */
  function WrapLong(x: int): (r: Long)
    ensures -0x8000_0000_0000_0000 <= x < 0x8000_0000_0000_0000 ==> r == x
  {
    var m := x % 0x1_0000_0000_0000_0000;
    if m < 0x8000_0000_0000_0000 then m else m - 0x1_0000_0000_0000_0000
  }

  /** 24 h in milliseconds, computed in int as 24 * 60 * 60 * 1000. */
  const DayMillis: int := 24 * 60 * 60 * 1000

  /** The age of the cache file: currentTimeMillis() - lastModified(), a long subtraction. */
  function Age(now: Long, lastModified: Long): Long {
    WrapLong(now - lastModified)
  }

  /** isCacheExpired: the file is older than 24 h. */
  predicate IsCacheExpired(now: Long, lastModified: Long) {
    Age(now, lastModified) > DayMillis
  }

  /**
   * Clock readings and file stamps are never negative, so the subtraction does
   * not wrap: a file is expired exactly when it is more than 86 400 000 ms old.
   */
  lemma ExpiredIffOlderThanADay(now: Long, lastModified: Long)
    requires 0 <= now && 0 <= lastModified
    ensures IsCacheExpired(now, lastModified) <==> now - lastModified > 86_400_000
  {
  }

  /** A file exactly 24 h old is still fresh; one millisecond later it has expired. */
  lemma ExactlyOneDayIsFresh(lastModified: Long)
    requires 0 <= lastModified && lastModified + DayMillis + 1 < 0x8000_0000_0000_0000
    ensures !IsCacheExpired(lastModified + DayMillis, lastModified)
    ensures IsCacheExpired(lastModified + DayMillis + 1, lastModified)
  {
    ExpiredIffOlderThanADay(lastModified + DayMillis, lastModified);
    ExpiredIffOlderThanADay(lastModified + DayMillis + 1, lastModified);
  }

  // ---------------------------------------------------------------------------
  // Loading

  /** A file in the cache directory: its bytes and its modification time. */
  datatype CacheFile = CacheFile(data: Bytes, lastModified: Long)

  /** The files that exist, by path. */
  type FileSystem = map<string, CacheFile>

  /**
   * The exceptions that escape loadImage: IllegalArgumentException from a box
   * that is not positive; NullPointerException from a response ImageIO cannot
   * decode, whose null image compressImage dereferences; ClassCastException
   * from a URL whose scheme is not http or https (file:, ftp:, jar:), whose
   * connection is not an HttpURLConnection.
   */
  datatype JavaException = IllegalArgument | NullPointer | ClassCast

  /** The unchecked exceptions downloadImage lets through: its catch takes IOException only. */
  type DownloadException = e: JavaException | e != IllegalArgument witness NullPointer

  /**
   * What downloadImage comes to: an IOException (no bytes); an unchecked
   * exception that escapes it before anything is written; or the re-encoded
   * bytes, with the modification time the cache file got when writing it
   * succeeded.
   */
  datatype Download = DownloadFailed
                    | DownloadThrew(exception: DownloadException)
                    | Downloaded(data: Bytes, storedAt: Option<Long>)

  /** The image getJavaFXImage builds: decoded from bytes, or the bundled placeholder, scaled to the box. */
  datatype Image = Decoded(data: Bytes, width: int, height: int) | Placeholder(width: int, height: int)

  /** The choice loadImage makes. */
  datatype Decision = NoImage | CacheHit(path: string) | Fetch(path: string)

  /**
   * The end of loadImage and the file system after it: the image it returns
   * (None for Java's null), or the exception it throws.
   */
  datatype Loaded = Loaded(image: Option<Image>, files: FileSystem)
                  | Threw(exception: JavaException, files: FileSystem)

  /** The choice of loadImage(url, width, height): null, the cached file, or a download. */
  function Decide(url: Option<string>, home: string, files: FileSystem, now: Long): (d: Decision)
    ensures d == NoImage <==> url == None || url == Some("")
    ensures d.CacheHit? ==> d.path in files && !IsCacheExpired(now, files[d.path].lastModified)
    ensures !d.NoImage? ==> d.path == CachePath(home, url.value)
  {
    if url == None || url.value == "" then NoImage
    else
      var path := CachePath(home, url.value);
      if path in files && !IsCacheExpired(now, files[path].lastModified) then CacheHit(path)
      else Fetch(path)
  }

  /** new WritableImage(width, height) accepts only a box with both sides positive. */
  predicate IsValidBox(width: int, height: int) {
    width > 0 && height > 0
  }

  /**
   * getJavaFXImage: the bytes decoded and scaled to the box, or the placeholder
   * for null. A box that is not positive makes the WritableImage constructor,
   * outside the try, throw IllegalArgumentException.
   */
  function JavaFXImage(raw: Option<Bytes>, width: int, height: int): (r: Result<Image, JavaException>)
    ensures r.Failure? <==> !IsValidBox(width, height)
    ensures r.Failure? ==> r.error == IllegalArgument
    ensures r.Success? ==> (r.value.Placeholder? <==> raw == None)
    ensures r.Success? ==> r.value.width == width && r.value.height == height
    ensures r.Success? && raw.Some? ==> r.value.data == raw.value
  {
    if !IsValidBox(width, height) then Failure(IllegalArgument)
    else match raw
      case None => Success(Placeholder(width, height))
      case Some(data) => Success(Decoded(data, width, height))
  }

  /** Returning the image getJavaFXImage built, or letting its exception escape. */
  function Deliver(image: Result<Image, JavaException>, files: FileSystem): Loaded {
    match image
    case Success(i) => Loaded(Some(i), files)
    case Failure(e) => Threw(e, files)
  }

  /**
   * loadImage(url, width, height): a cache hit reads the cached bytes; otherwise
   * the download runs, and the bytes it produced are written to the cache file
   * when writing succeeded, before getJavaFXImage looks at the box.
   */
  function LoadImage(url: Option<string>, width: int, height: int, home: string,
                     files: FileSystem, now: Long, download: Download): (r: Loaded)
    ensures url.None? ==> r.files == files
    ensures url.Some? ==> forall p :: p != CachePath(home, url.value) ==>
              (p in r.files <==> p in files) && (p in files ==> r.files[p] == files[p])
    ensures r.Loaded? && r.image.Some? ==> r.image.value.width == width && r.image.value.height == height
    ensures r.Threw? && r.exception == IllegalArgument ==> !IsValidBox(width, height)
    ensures r.Threw? && r.exception != IllegalArgument ==> download == DownloadThrew(r.exception) && r.files == files
  {
    match Decide(url, home, files, now)
    case NoImage => Loaded(None, files)
    case CacheHit(path) => Deliver(JavaFXImage(Some(files[path].data), width, height), files)
    case Fetch(path) =>
      match download
      case DownloadFailed => Deliver(JavaFXImage(None, width, height), files)
      case DownloadThrew(e) => Threw(e, files)
      case Downloaded(data, storedAt) =>
        Deliver(JavaFXImage(Some(data), width, height),
                if storedAt.Some? then files[path := CacheFile(data, storedAt.value)] else files)
  }

  /** The default box of the one-argument loadImage. */
  const DefaultWidth := 70
  const DefaultHeight := 100

  /**
   * loadImage(url): the 70 x 100 box, which is valid, so the only exceptions
   * are those the download let through, and every image has that box.
   */
  function LoadImageDefault(url: Option<string>, home: string, files: FileSystem,
                            now: Long, download: Download): (r: Loaded)
    ensures r.Threw? ==> download.DownloadThrew? && download.exception == r.exception && r.files == files
    ensures (r.Loaded? && r.image.None?) <==> url == None || url == Some("")
    ensures r.Loaded? && r.image.Some? ==> r.image.value.width == 70 && r.image.value.height == 100
  {
    LoadImage(url, DefaultWidth, DefaultHeight, home, files, now, download)
  }

  /** A null or empty URL gives null and leaves the cache alone, whatever the download would do. */
  lemma NoUrlNoImage(url: Option<string>, width: int, height: int, home: string,
                     files: FileSystem, now: Long, download: Download)
    requires url == None || url == Some("")
    ensures LoadImage(url, width, height, home, files, now, download) == Loaded(None, files)
  {
  }

  /**
   * The cached bytes are used exactly when the cache file exists and has not
   * expired: then the download outcome does not matter and nothing is written.
   * Otherwise the image comes from the download: a failed one gives the
   * placeholder, one that throws passes its exception on and stores nothing,
   * and a decoded one becomes the new cache file when it was written, whatever
   * the box. A box that is not positive throws IllegalArgumentException on
   * every path but the download that throws.
   */
  lemma CacheUsedIffPresentAndFresh(url: string, width: int, height: int, home: string,
                                    files: FileSystem, now: Long, download: Download)
    requires url != ""
    ensures var path := CachePath(home, url);
      var r := LoadImage(Some(url), width, height, home, files, now, download);
      var valid := IsValidBox(width, height);
      && (path in files && !IsCacheExpired(now, files[path].lastModified) ==>
            && (valid ==> r == Loaded(Some(Decoded(files[path].data, width, height)), files))
            && (!valid ==> r == Threw(IllegalArgument, files)))
      && (!(path in files && !IsCacheExpired(now, files[path].lastModified)) ==>
            match download
            case DownloadFailed =>
              && (valid ==> r == Loaded(Some(Placeholder(width, height)), files))
              && (!valid ==> r == Threw(IllegalArgument, files))
            case DownloadThrew(e) => r == Threw(e, files)
            case Downloaded(data, storedAt) =>
              && r.files == (if storedAt.Some? then files[path := CacheFile(data, storedAt.value)] else files)
              && (valid ==> r.Loaded? && r.image == Some(Decoded(data, width, height)))
              && (!valid ==> r.Threw? && r.exception == IllegalArgument))
  {
  }

  /**
   * Cache round trip: a download loaded at time t and written at a time s no
   * earlier is served from the cache, byte for byte, by every load of the same
   * URL up to 24 h after s, with no second download; a box that is not
   * positive throws instead.
   */
  lemma StoredDownloadServedForADay(url: string, w: int, h: int, home: string, files: FileSystem,
                                    t: Long, s: Long, data: Bytes, w2: int, h2: int, later: Long,
                                    again: Download)
    requires url != "" && 0 <= t <= s <= later && later - s <= DayMillis
    ensures var first := LoadImage(Some(url), w, h, home, files, t, Downloaded(data, Some(s)));
      var path := CachePath(home, url);
      var second := LoadImage(Some(url), w2, h2, home, first.files, later, again);
      (path !in files || IsCacheExpired(t, files[path].lastModified)) ==>
        && Decide(Some(url), home, first.files, later) == CacheHit(path)
        && (IsValidBox(w2, h2) ==> second == Loaded(Some(Decoded(data, w2, h2)), first.files))
        && (!IsValidBox(w2, h2) ==> second == Threw(IllegalArgument, first.files))
  {
    ExpiredIffOlderThanADay(later, s);
  }

  /** More than 24 h after it was stored, the same file is fetched again. */
  lemma StoredDownloadRefetchedAfterADay(url: string, home: string, files: FileSystem,
                                         t: Long, data: Bytes, later: Long)
    requires url != "" && 0 <= t && later - t > DayMillis
    requires CachePath(home, url) in files && files[CachePath(home, url)] == CacheFile(data, t)
    ensures Decide(Some(url), home, files, later) == Fetch(CachePath(home, url))
  {
    ExpiredIffOlderThanADay(later, t);
  }

  // ---------------------------------------------------------------------------
  // Asynchronous loading

  /**
   * Character.isWhitespace: the space, line and paragraph separators except the
   * no-break spaces U+00A0, U+2007 and U+202F, and U+0009-U+000D, U+001C-U+001F.
   */
  predicate IsWhitespace(c: char) {
    || '\U{0009}' <= c <= '\U{000D}'
    || '\U{001C}' <= c <= '\U{0020}'
    || c == '\U{1680}'
    || '\U{2000}' <= c <= '\U{2006}'
    || '\U{2008}' <= c <= '\U{200A}'
    || c == '\U{2028}' || c == '\U{2029}' || c == '\U{205F}' || c == '\U{3000}'
  }

  /** StringUtils.isBlank: null, empty or only whitespace. */
  predicate IsBlank(s: Option<string>) {
    s.None? || forall i :: 0 <= i < |s.value| ==> IsWhitespace(s.value[i])
  }

  /** A text is blank exactly when both of its parts are. */
  lemma BlankConcat(s: string, t: string)
    ensures IsBlank(Some(s + t)) <==> IsBlank(Some(s)) && IsBlank(Some(t))
  {
    var st := s + t;
    if IsBlank(Some(s)) && IsBlank(Some(t)) {
      forall i | 0 <= i < |st|
        ensures IsWhitespace(st[i])
      {
        if i >= |s| {
          assert st[i] == t[i - |s|];
        }
      }
    } else if IsBlank(Some(st)) {
      forall i | 0 <= i < |s|
        ensures IsWhitespace(s[i])
      {
        assert st[i] == s[i];
      }
      forall i | 0 <= i < |t|
        ensures IsWhitespace(t[i])
      {
        assert st[|s| + i] == t[i];
      }
    }
  }

  /** Blank texts: whitespace of several kinds counts, the no-break space does not. */
  lemma BlankExamples()
    ensures IsBlank(None) && IsBlank(Some(""))
    ensures IsBlank(Some(" \t\n\r")) && IsBlank(Some("\U{3000}"))
    ensures !IsBlank(Some(" a ")) && !IsBlank(Some("\U{00A0}")) && !IsBlank(Some("null"))
  {
    assert " a "[1] == 'a';
    assert "\U{00A0}"[0] == '\U{00A0}';
    assert "null"[0] == 'n';
  }

  /**
   * What an asynchronous load leads to: the task returned early; an exception
   * ended it on the pool thread, so the callback never ran; or the callback
   * received the image. The file system is the one after the task.
   */
  datatype Callback = Skipped
                    | Aborted(exception: JavaException, files: FileSystem)
                    | Invoked(image: Option<Image>, files: FileSystem)

  /** The task that hands loadImage's result to the callback. */
  function RunTask(loaded: Loaded): (c: Callback)
    ensures !c.Skipped? && c.files == loaded.files
    ensures c.Invoked? <==> loaded.Loaded?
  {
    match loaded
    case Loaded(image, files) => Invoked(image, files)
    case Threw(e, files) => Aborted(e, files)
  }

  /** loadImageAsync(url, width, height, callback): skips blank URLs and the text "null". */
  function LoadImageAsync(url: Option<string>, width: int, height: int, home: string,
                          files: FileSystem, now: Long, download: Download): (r: Callback)
    ensures r.Skipped? <==> IsBlank(url) || url == Some("null")
    ensures r.Invoked? ==> r.image.Some?
  {
    if IsBlank(url) || url == Some("null") then Skipped
    else RunTask(LoadImage(url, width, height, home, files, now, download))
  }

  /**
   * loadImageAsync(url, callback): never skips; the callback receives
   * loadImage(url): null for a null or empty URL, and otherwise a 70 x 100
   * image; the task ends before the callback only with an exception the
   * download let through, and then nothing was stored.
   */
  function LoadImageAsyncDefault(url: Option<string>, home: string, files: FileSystem,
                                 now: Long, download: Download): (r: Callback)
    ensures !r.Skipped?
    ensures r.Aborted? ==> download.DownloadThrew? && download.exception == r.exception && r.files == files
    ensures r.Invoked? && r.image.Some? ==> r.image.value.width == 70 && r.image.value.height == 100
  {
    RunTask(LoadImageDefault(url, home, files, now, download))
  }

  /**
   * The sized loader never calls back for a blank URL or "null"; otherwise it
   * calls back with loadImage's image exactly when loadImage returns, and the
   * task ends with loadImage's exception when it throws.
   */
  lemma AsyncSkipsBlankUrls(url: Option<string>, width: int, height: int, home: string,
                            files: FileSystem, now: Long, download: Download)
    ensures var r := LoadImageAsync(url, width, height, home, files, now, download);
      var loaded := LoadImage(url, width, height, home, files, now, download);
      && (r.Skipped? <==> IsBlank(url) || url == Some("null"))
      && (!r.Skipped? ==> r.files == loaded.files)
      && (r.Invoked? <==> !r.Skipped? && loaded.Loaded?)
      && (r.Invoked? ==> r.image == loaded.image && r.image.Some?)
      && (r.Aborted? ==> loaded.Threw? && r.exception == loaded.exception)
  {
  }

  /** The unsized loader hands null to its callback for a null or empty URL. */
  lemma AsyncDefaultPassesNull(url: Option<string>, home: string, files: FileSystem,
                               now: Long, download: Download)
    requires url == None || url == Some("")
    ensures LoadImageAsyncDefault(url, home, files, now, download) == Invoked(None, files)
  {
  }

  // ---------------------------------------------------------------------------
  // Most common colour

  /** The number of 24-bit RGB values. */
  const ColorCount := 0x100_0000

  /** pixel & 0x00ffffff: the low 24 bits of a Java int, dropping the alpha byte. */
  function Rgb(pixel: int): (c: int)
    ensures 0 <= c < ColorCount
  {
    pixel % ColorCount
  }

  /** The Java int of an ARGB pixel, alpha in the top byte. */
  function PackArgb(alpha: Channel, red: Channel, green: Channel, blue: Channel): int {
    var v := alpha * 0x100_0000 + red * 0x1_0000 + green * 0x100 + blue;
    if v < 0x8000_0000 then v else v - 0x1_0000_0000
  }

  /** The histogram key of a pixel is its RGB value, whatever its alpha. */
  lemma RgbIgnoresAlpha(alpha: Channel, red: Channel, green: Channel, blue: Channel)
    ensures Rgb(PackArgb(alpha, red, green, blue)) == red * 0x1_0000 + green * 0x100 + blue
  {
    var rgb := red * 0x1_0000 + green * 0x100 + blue;
    var v := alpha * 0x100_0000 + rgb;
    assert v % ColorCount == rgb;
    assert (v - 0x1_0000_0000) % ColorCount == rgb;
  }

  /** How many pixels have RGB value c. */
  function Count(pixels: seq<int>, c: int): nat {
    if pixels == [] then 0
    else Count(pixels[..|pixels| - 1], c) + (if Rgb(pixels[|pixels| - 1]) == c then 1 else 0)
  }

  /** The sum of the counts of the colours lo to hi - 1. */
  function CountSum(pixels: seq<int>, lo: int, hi: int): nat
    decreases hi - lo
  {
    if hi <= lo then 0 else CountSum(pixels, lo, hi - 1) + Count(pixels, hi - 1)
  }

  lemma {:induction false} CountSumAppend(pixels: seq<int>, p: int, lo: int, hi: int)
    ensures CountSum(pixels + [p], lo, hi)
            == CountSum(pixels, lo, hi) + (if lo <= Rgb(p) < hi then 1 else 0)
    decreases hi - lo
  {
    assert (pixels + [p])[..|pixels|] == pixels;
    if lo < hi {
      CountSumAppend(pixels, p, lo, hi - 1);
    }
  }

  lemma {:induction false} CountSumOfNoPixels(lo: int, hi: int)
    ensures CountSum([], lo, hi) == 0
    decreases hi - lo
  {
    if lo < hi {
      CountSumOfNoPixels(lo, hi - 1);
    }
  }

  /** The histogram accounts for every pixel exactly once: its counts sum to the pixel count. */
  lemma {:induction false} CountsSumToPixelCount(pixels: seq<int>)
    ensures CountSum(pixels, 0, ColorCount) == |pixels|
  {
    if pixels == [] {
      CountSumOfNoPixels(0, ColorCount);
    } else {
      var front := pixels[..|pixels| - 1];
      assert pixels == front + [pixels[|pixels| - 1]];
      CountsSumToPixelCount(front);
      CountSumAppend(front, pixels[|pixels| - 1], 0, ColorCount);
    }
  }

  /** Two different colours never count more pixels together than there are. */
  lemma {:induction false} TwoCountsAtMostAll(pixels: seq<int>, c: int, d: int)
    requires c != d
    ensures Count(pixels, c) + Count(pixels, d) <= |pixels|
  {
    if pixels != [] {
      TwoCountsAtMostAll(pixels[..|pixels| - 1], c, d);
    }
  }

  /** Pixels that agree in RGB agree in every count: alpha plays no part. */
  lemma {:induction false} CountsIgnoreAlpha(pixels: seq<int>, others: seq<int>, c: int)
    requires |pixels| == |others|
    requires forall i :: 0 <= i < |pixels| ==> Rgb(pixels[i]) == Rgb(others[i])
    ensures Count(pixels, c) == Count(others, c)
  {
    if pixels != [] {
      CountsIgnoreAlpha(pixels[..|pixels| - 1], others[..|others| - 1], c);
    }
  }

  /**
   * color is the most common RGB value of the pixels, and the smallest one
   * among the most common (the scan keeps the first maximum it meets).
   */
  ghost predicate IsMostCommon(pixels: seq<int>, color: int) {
    0 <= color < ColorCount
    && (forall c :: 0 <= c < ColorCount ==> Count(pixels, c) <= Count(pixels, color))
    && (forall c :: 0 <= c < color ==> Count(pixels, c) < Count(pixels, color))
  }

  /** At most one colour is the most common in this sense. */
  lemma MostCommonIsUnique(pixels: seq<int>, a: int, b: int)
    requires IsMostCommon(pixels, a) && IsMostCommon(pixels, b)
    ensures a == b
  {
    // each count is at most the other, and a smaller colour would have a strictly smaller count
    assert Count(pixels, a) == Count(pixels, b);
    assert a < b ==> Count(pixels, a) < Count(pixels, b);
    assert b < a ==> Count(pixels, b) < Count(pixels, a);
  }

  /** A colour that covers more than half of the pixels is the most common one. */
  lemma MajorityColorIsMostCommon(pixels: seq<int>, majority: int, color: int)
    requires 0 <= majority < ColorCount && 2 * Count(pixels, majority) > |pixels|
    requires IsMostCommon(pixels, color)
    ensures color == majority
  {
    if color != majority {
      TwoCountsAtMostAll(pixels, majority, color);
    }
  }

  /** Without pixels every count is zero and the answer is 0. */
  lemma NoPixelsGiveZero(color: int)
    requires IsMostCommon([], color)
    ensures color == 0
  {
    // a positive answer would need a count above that of colour 0, but every count is zero
    assert Count([], color) == 0 && Count([], 0) == 0;
    assert 0 < color ==> Count([], 0) < Count([], color);
  }

  /**
   * getMostCommonColor over the ARGB pixel buffer: counts every pixel into a
   * 2^24-entry histogram indexed by its RGB bits, then scans the histogram with
   * a strict '>' so the first maximum is kept.
   */
  method MostCommonColor(pixels: array<int>) returns (maxColor: int)
    ensures IsMostCommon(pixels[..], maxColor)
    ensures pixels.Length == 0 ==> maxColor == 0
  {
    var counts := new int[ColorCount](_ => 0);
    var i := 0;
    while i < pixels.Length
      invariant 0 <= i <= pixels.Length
      invariant forall c :: 0 <= c < ColorCount ==> counts[c] == Count(pixels[..i], c)
    {
      assert pixels[..i + 1][..i] == pixels[..i];
      var key := Rgb(pixels[i]);
      counts[key] := counts[key] + 1;
      i := i + 1;
    }
    assert pixels[..i] == pixels[..];

    var maxCount := 0;
    maxColor := 0;
    var j := 0;
    while j < ColorCount
      invariant 0 <= j <= ColorCount && 0 <= maxColor < ColorCount && 0 <= maxCount
      invariant maxColor < j || maxColor == 0
      invariant maxColor < j ==> maxCount == counts[maxColor]
      invariant maxColor >= j ==> maxCount == 0
      invariant forall c :: 0 <= c < j ==> counts[c] <= maxCount
      invariant forall c :: 0 <= c < maxColor ==> counts[c] < maxCount
    {
      if counts[j] > maxCount {
        maxCount := counts[j];
        maxColor := j;
      }
      j := j + 1;
    }
    if pixels.Length == 0 {
      NoPixelsGiveZero(maxColor);
    }
  }
}
