/** Theme helpers of the viewer's Qt utilities: the HSL lightness of a colour, the
  * dark-theme test, the resource paths of the named icons and the loading of a
  * list of style sheets. Files are an abstract map from path to contents: a path
  * missing from the map is a file that cannot be opened. */
module ThemeUtil {
  import opened Common

  function Max3(a: int, b: int, c: int): (m: int)
    ensures m >= a && m >= b && m >= c && (m == a || m == b || m == c)
  {
    var ab := if a < b then b else a;
    if ab < c then c else ab
  }

  function Min3(a: int, b: int, c: int): (m: int)
    ensures m <= a && m <= b && m <= c && (m == a || m == b || m == c)
  {
    var ab := if a < b then a else b;
    if c < ab then c else ab
  }

  /** Lightness of an RGB colour: the midpoint of its largest and smallest
    * component, rounded down. */
  function Lightness(r: int, g: int, b: int): (l: int)
    requires 0 <= r <= 255 && 0 <= g <= 255 && 0 <= b <= 255
    ensures 0 <= l <= 255
    ensures Min3(r, g, b) <= l <= Max3(r, g, b)
    ensures 2 * l == Max3(r, g, b) + Min3(r, g, b) || 2 * l + 1 == Max3(r, g, b) + Min3(r, g, b)
  {
    (Max3(r, g, b) + Min3(r, g, b)) / 2
  }

  datatype Color = Color(r: int, g: int, b: int)
  {
    predicate Valid() { 0 <= r <= 255 && 0 <= g <= 255 && 0 <= b <= 255 }
  }

  /** A palette is dark when its text is lighter than its window. */
  function IsDarkTheme(window: Color, windowText: Color): (dark: bool)
    requires window.Valid() && windowText.Valid()
    ensures dark <==> Lightness(windowText.r, windowText.g, windowText.b) >
                      Lightness(window.r, window.g, window.b)
  {
    Lightness(windowText.r, windowText.g, windowText.b) > Lightness(window.r, window.g, window.b)
  }

  /** Equal lightness is not dark, and text and window cannot both be the lighter. */
  lemma DarkIsStrict(window: Color, windowText: Color)
    requires window.Valid() && windowText.Valid()
    ensures Lightness(window.r, window.g, window.b) == Lightness(windowText.r, windowText.g, windowText.b)
      ==> !IsDarkTheme(window, windowText)
    ensures !(IsDarkTheme(window, windowText) && IsDarkTheme(windowText, window))
    ensures !IsDarkTheme(window, window)
  {
  }

  /** The icon types with a case in GetIcon; Unhandled stands for any other. */
  datatype IconType =
    | IconQt | IconAbout | IconHelp | IconAuthors | IconText | IconSave | IconSaveAs
    | IconClose | IconExit | IconPrint | IconNew | IconNewWindow | IconOpen | IconCut
    | IconCopy | IconPaste | IconDelete | IconZoomIn | IconZoomOut | IconZoomIdentity
    | IconZoomEmpty | IconZoomCustom | IconLeft | IconRight | IconRotateClockwise
    | IconRotateCounterclockwise | IconFlipHorizontal | IconFlipVertical | IconSettings
    | IconFullscreen | IconPlay | IconStop | IconReset | Unhandled

  /** The name given to each case: the enumerator's spelling, except for two. */
  function IconName(t: IconType): (n: string)
    requires t != Unhandled
    ensures |n| > 5 && (n[..5] == "ICON_" || n[..5] == "icon_")
  {
    match t
    case IconQt => "ICON_QT"
    case IconAbout => "icon_info"
    case IconHelp => "ICON_HELP"
    case IconAuthors => "icon_people"
    case IconText => "ICON_TEXT"
    case IconSave => "ICON_SAVE"
    case IconSaveAs => "ICON_SAVE_AS"
    case IconClose => "ICON_CLOSE"
    case IconExit => "ICON_EXIT"
    case IconPrint => "ICON_PRINT"
    case IconNew => "ICON_NEW"
    case IconNewWindow => "ICON_NEW_WINDOW"
    case IconOpen => "ICON_OPEN"
    case IconCut => "ICON_CUT"
    case IconCopy => "ICON_COPY"
    case IconPaste => "ICON_PASTE"
    case IconDelete => "ICON_DELETE"
    case IconZoomIn => "ICON_ZOOM_IN"
    case IconZoomOut => "ICON_ZOOM_OUT"
    case IconZoomIdentity => "ICON_ZOOM_IDENTITY"
    case IconZoomEmpty => "ICON_ZOOM_EMPTY"
    case IconZoomCustom => "ICON_ZOOM_CUSTOM"
    case IconLeft => "ICON_LEFT"
    case IconRight => "ICON_RIGHT"
    case IconRotateClockwise => "ICON_ROTATE_CLOCKWISE"
    case IconRotateCounterclockwise => "ICON_ROTATE_COUNTERCLOCKWISE"
    case IconFlipHorizontal => "ICON_FLIP_HORIZONTAL"
    case IconFlipVertical => "ICON_FLIP_VERTICAL"
    case IconSettings => "ICON_SETTINGS"
    case IconFullscreen => "ICON_FULLSCREEN"
    case IconPlay => "ICON_PLAY"
    case IconStop => "ICON_STOP"
    case IconReset => "ICON_RESET"
  }

  const ICON_PREFIX: string := ":/icons/modern/"

  /** The raster files GetIcon builds its icon from: the lower-cased name with
    * the 16 and 32 pixel suffixes; an unhandled type gives an empty icon. */
  function IconPaths(t: IconType): (paths: seq<string>)
    ensures t == Unhandled <==> paths == []
    ensures t != Unhandled ==>
      (|paths| == 2 &&
       paths[0] == ICON_PREFIX + ToLower(IconName(t)) + "_16.png" &&
       paths[1] == ICON_PREFIX + ToLower(IconName(t)) + "_32.png")
  {
    if t == Unhandled then []
    else
      var name := ToLower(IconName(t));
      var template := ICON_PREFIX + name;
      [template + "_" + "16" + ".png", template + "_" + "32" + ".png"]
  }

  /** The file stem in both paths is lower case. */
  lemma IconNamesAreLowerCase(t: IconType)
    requires t != Unhandled
    ensures IsLower(ToLower(IconName(t)))
  {
    ToLowerIsLower(IconName(t));
  }

  /** The style text made of the files that open, in list order. */
  function ReadableStyles(paths: seq<string>, files: map<string, string>): string
  {
    if paths == [] then ""
    else
      var last := paths[|paths| - 1];
      ReadableStyles(paths[..|paths| - 1], files) + (if last in files then files[last] else "")
  }

  /** LoadStyleSheet: the sheet applied and the status returned. */
  method LoadStyleSheet(filePaths: seq<string>, files: map<string, string>)
    returns (applied: string, status: bool)
    ensures applied == ReadableStyles(filePaths, files)
    ensures status <==> forall i :: 0 <= i < |filePaths| ==> filePaths[i] in files
  {
    status := true;
    var allStyles := "";
    var i := 0;
    while i < |filePaths|
      invariant 0 <= i <= |filePaths|
      invariant allStyles == ReadableStyles(filePaths[..i], files)
      invariant status <==> forall k :: 0 <= k < i ==> filePaths[k] in files
    {
      assert filePaths[..i + 1][..i] == filePaths[..i];
      if filePaths[i] in files {
        allStyles := allStyles + files[filePaths[i]];
      } else {
        status := false;
      }
      i := i + 1;
    }
    assert filePaths[..i] == filePaths;
    applied := allStyles;
  }

  /** When every file opens, the sheet is the concatenation of all of them. */
  lemma {:induction false} AllReadableIsConcatenation(paths: seq<string>, files: map<string, string>)
    requires forall i :: 0 <= i < |paths| ==> paths[i] in files
    ensures ReadableStyles(paths, files) == ConcatAll(paths, files)
  {
    if paths != [] {
      var init := paths[..|paths| - 1];
      AllReadableIsConcatenation(init, files);
      ConcatAllSnoc(init, paths[|paths| - 1], files);
      assert paths == init + [paths[|paths| - 1]];
    }
  }

  /** The contents of every listed file, in order (every path must open). */
  function ConcatAll(paths: seq<string>, files: map<string, string>): string
    requires forall i :: 0 <= i < |paths| ==> paths[i] in files
  {
    if paths == [] then "" else files[paths[0]] + ConcatAll(paths[1..], files)
  }

  lemma {:induction false} ConcatAllSnoc(init: seq<string>, last: string, files: map<string, string>)
    requires forall i :: 0 <= i < |init| ==> init[i] in files
    requires last in files
    ensures ConcatAll(init + [last], files) == ConcatAll(init, files) + files[last]
  {
    if init != [] {
      assert (init + [last])[1..] == init[1..] + [last];
      ConcatAllSnoc(init[1..], last, files);
    }
  }
}
