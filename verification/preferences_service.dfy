/**
 The decision rules of the preferences service: version normalisation, window
 size and position persistence, and scan-size defaulting. The preferences
 store and the window manager are replaced by parameters, the stored client
 version by the value SetAppVersion returns; each save returns the new
 preferences record.
 */
module PreferencesService {
  import opened Wrappers
  import opened GoStrings
  import opened Prefs

  // ---------------------------------------------------------------- version

  /** The client version the service keeps after SetAppVersion(ver). */
  function SetAppVersion(ver: GoString): (version: GoString)
    ensures HasPrefix(version, [LowerV])
    ensures HasPrefix(ver, [LowerV]) ==> version == ver
    ensures |ver| <= |version| <= |ver| + 1
    ensures version[|version| - |ver|..] == ver
  {
    if !HasPrefix(ver, [LowerV]) then [LowerV] + ver else ver
  }

  /** Normalising twice is normalising once. */
  lemma SetAppVersionIdempotent(ver: GoString)
    ensures SetAppVersion(SetAppVersion(ver)) == SetAppVersion(ver)
  {
  }

  /** A version without the prefix gains exactly one leading 'v'. */
  lemma SetAppVersionPrepends(ver: GoString)
    requires !HasPrefix(ver, [LowerV])
    ensures SetAppVersion(ver) == [LowerV] + ver
  {
  }

  // ------------------------------------------------------------ window size

  /** The update request SaveWindowSize sends; empty when it sends none. */
  function SaveWindowSizeRequest(c: Consts, width: int, height: int, maximised: bool): (u: seq<Assignment>)
    ensures DistinctKeys(u)
  {
    if maximised then
      [WindowMaximised(true)]
    else if width >= c.minWindowWidth && height >= c.minWindowHeight then
      [WindowWidth(width), WindowHeight(height), WindowMaximised(false)]
    else
      []
  }

  function SaveWindowSize(p: Preferences, c: Consts, width: int, height: int, maximised: bool): (r: Preferences)
    ensures r.general == p.general
    ensures r.behavior.windowPosX == p.behavior.windowPosX
    ensures r.behavior.windowPosY == p.behavior.windowPosY
    ensures maximised ==>
      && r.behavior.windowMaximised
      && r.behavior.windowWidth == p.behavior.windowWidth
      && r.behavior.windowHeight == p.behavior.windowHeight
    ensures !maximised && width >= c.minWindowWidth && height >= c.minWindowHeight ==>
      && r.behavior.windowWidth == width
      && r.behavior.windowHeight == height
      && !r.behavior.windowMaximised
    ensures !maximised && (width < c.minWindowWidth || height < c.minWindowHeight) ==> r == p
  {
    ApplyOne(p, WindowMaximised(true));
    ApplyThree(p, WindowWidth(width), WindowHeight(height), WindowMaximised(false));
    Apply(p, SaveWindowSizeRequest(c, width, height, maximised))
  }

  /** The store may receive the entries of the request map in any order;
      each order performs the same save. */
  lemma SaveWindowSizeAnyOrder(p: Preferences, c: Consts, width: int, height: int, maximised: bool, v: seq<Assignment>)
    requires multiset(v) == multiset(SaveWindowSizeRequest(c, width, height, maximised))
    ensures Apply(p, v) == SaveWindowSize(p, c, width, height, maximised)
  {
    ApplyOrderIrrelevant(p, SaveWindowSizeRequest(c, width, height, maximised), v);
  }

  /** What GetWindowSize reports. */
  datatype WindowSize = WindowSize(width: int, height: int, maximised: bool)

  /** A stored dimension, or the default when the stored one is not positive. */
  function OrDefault(stored: int, default: Positive): Positive {
    if stored <= 0 then default else stored
  }

  function GetWindowSize(p: Preferences, c: Consts): (r: WindowSize)
    ensures r.width > 0 && r.height > 0
    ensures r.maximised == p.behavior.windowMaximised
    ensures p.behavior.windowWidth > 0 ==> r.width == p.behavior.windowWidth
    ensures p.behavior.windowWidth <= 0 ==> r.width == c.defaultWindowWidth
    ensures p.behavior.windowHeight > 0 ==> r.height == p.behavior.windowHeight
    ensures p.behavior.windowHeight <= 0 ==> r.height == c.defaultWindowHeight
  {
    var b := p.behavior;
    WindowSize(OrDefault(b.windowWidth, c.defaultWindowWidth),
               OrDefault(b.windowHeight, c.defaultWindowHeight),
               b.windowMaximised)
  }

  /** A size that passes the minimum check is read back exactly, unmaximised. */
  lemma SaveThenGetWindowSize(p: Preferences, c: Consts, width: int, height: int)
    requires width >= c.minWindowWidth && height >= c.minWindowHeight
    ensures GetWindowSize(SaveWindowSize(p, c, width, height, false), c) == WindowSize(width, height, false)
  {
  }

  /** Saving while maximised only flips the flag the reader reports. */
  lemma SaveMaximisedThenGetWindowSize(p: Preferences, c: Consts, width: int, height: int)
    ensures GetWindowSize(SaveWindowSize(p, c, width, height, true), c)
         == GetWindowSize(p, c).(maximised := true)
  {
  }

  /** Repeating a save changes nothing more. */
  lemma SaveWindowSizeIdempotent(p: Preferences, c: Consts, width: int, height: int, maximised: bool)
    ensures var q := SaveWindowSize(p, c, width, height, maximised);
            SaveWindowSize(q, c, width, height, maximised) == q
  {
  }

  // -------------------------------------------------------- window position

  /** One entry of the window manager's screen list. */
  datatype Screen = Screen(isCurrent: bool, width: int, height: int)

  datatype Size = Size(width: int, height: int)

  datatype Point = Point(x: int, y: int)

  /** `i` is the first screen flagged current. */
  predicate IsFirstCurrent(screens: seq<Screen>, i: int) {
    && 0 <= i < |screens|
    && screens[i].isCurrent
    && forall j :: 0 <= j < i ==> !screens[j].isCurrent
  }

  /** The index at which the loop in GetWindowPosition breaks, if any. */
  function FirstCurrent(screens: seq<Screen>): (r: Option<nat>)
    ensures r.Some? ==> IsFirstCurrent(screens, r.value)
    ensures r.None? ==> forall j :: 0 <= j < |screens| ==> !screens[j].isCurrent
  {
    if |screens| == 0 then None
    else if screens[0].isCurrent then Some(0)
    else match FirstCurrent(screens[1..])
      case None => None
      case Some(i) => Some(i + 1)
  }

  /** The screen size GetWindowPosition measures against. `lookup` is the
      window manager's answer: None when the query failed. */
  function ScreenSize(c: Consts, lookup: Option<seq<Screen>>): (s: Size)
    ensures s.width > 0 && s.height > 0
    ensures forall i :: lookup.Some? && IsFirstCurrent(lookup.value, i)
                        && lookup.value[i].width > 0 && lookup.value[i].height > 0
                        ==> s == Size(lookup.value[i].width, lookup.value[i].height)
    ensures (lookup.None? || forall i :: IsFirstCurrent(lookup.value, i)
                                         ==> lookup.value[i].width <= 0 || lookup.value[i].height <= 0)
            ==> s == Size(c.defaultWindowWidth, c.defaultWindowHeight)
  {
    var found :=
      if lookup.None? then Size(0, 0)
      else match FirstCurrent(lookup.value)
        case None => Size(0, 0)
        case Some(i) => Size(lookup.value[i].width, lookup.value[i].height);
    if found.width <= 0 || found.height <= 0 then
      Size(c.defaultWindowWidth, c.defaultWindowHeight)
    else
      found
  }

  /** Go's `a / 2` on int, which truncates toward zero. */
  function Half(a: int): (q: int)
    ensures 0 <= a ==> 0 <= 2 * q <= a <= 2 * q + 1
    ensures a < 0 ==> 2 * q - 1 <= a <= 2 * q <= 0
  {
    if a >= 0 then a / 2 else -((-a) / 2)
  }

  /** The stored window lies strictly inside the screen's top-left edges and
      within its right and bottom edges. */
  predicate FitsOnScreen(b: Behavior, s: Size) {
    && b.windowPosX > 0 && b.windowPosX + b.windowWidth <= s.width
    && b.windowPosY > 0 && b.windowPosY + b.windowHeight <= s.height
  }

  function GetWindowPosition(p: Preferences, c: Consts, lookup: Option<seq<Screen>>): (r: Point)
    ensures var b, s := p.behavior, ScreenSize(c, lookup);
      FitsOnScreen(b, s) ==> r == Point(b.windowPosX, b.windowPosY)
    ensures var b, s := p.behavior, ScreenSize(c, lookup);
      !FitsOnScreen(b, s) ==>
        && (b.windowWidth <= s.width ==> 0 <= (s.width - b.windowWidth) - 2 * r.x <= 1)
        && (b.windowWidth > s.width ==> -1 <= (s.width - b.windowWidth) - 2 * r.x <= 0)
        && (b.windowHeight <= s.height ==> 0 <= (s.height - b.windowHeight) - 2 * r.y <= 1)
        && (b.windowHeight > s.height ==> -1 <= (s.height - b.windowHeight) - 2 * r.y <= 0)
  {
    var b := p.behavior;
    var s := ScreenSize(c, lookup);
    if b.windowPosX <= 0 || b.windowPosX + b.windowWidth > s.width
       || b.windowPosY <= 0 || b.windowPosY + b.windowHeight > s.height then
      Point(Half(s.width - b.windowWidth), Half(s.height - b.windowHeight))
    else
      Point(b.windowPosX, b.windowPosY)
  }

  /** When the stored position is rejected the window is centred: the gaps
      on the two sides differ by at most one pixel, the odd pixel going to
      the side the truncating division favours, and a window no larger than
      the screen ends up entirely on it. */
  lemma RecentredWindowIsCentred(p: Preferences, c: Consts, lookup: Option<seq<Screen>>)
    requires !FitsOnScreen(p.behavior, ScreenSize(c, lookup))
    ensures var b, s, r := p.behavior, ScreenSize(c, lookup), GetWindowPosition(p, c, lookup);
      && r == Point(Half(s.width - b.windowWidth), Half(s.height - b.windowHeight))
      && (0 <= b.windowWidth <= s.width ==> 0 <= r.x && r.x + b.windowWidth <= s.width)
      && (0 <= b.windowHeight <= s.height ==> 0 <= r.y && r.y + b.windowHeight <= s.height)
  {
  }

  /** The request SaveWindowPosition sends; empty when it sends none. */
  function SaveWindowPositionRequest(x: int, y: int): (u: seq<Assignment>)
    ensures DistinctKeys(u)
  {
    if x > 0 || y > 0 then [WindowPosX(x), WindowPosY(y)] else []
  }

  function SaveWindowPosition(p: Preferences, x: int, y: int): (r: Preferences)
    ensures r.general == p.general
    ensures r.behavior.windowWidth == p.behavior.windowWidth
    ensures r.behavior.windowHeight == p.behavior.windowHeight
    ensures r.behavior.windowMaximised == p.behavior.windowMaximised
    ensures x > 0 || y > 0 ==> r.behavior.windowPosX == x && r.behavior.windowPosY == y
    ensures x <= 0 && y <= 0 ==> r == p
  {
    ApplyTwo(p, WindowPosX(x), WindowPosY(y));
    Apply(p, SaveWindowPositionRequest(x, y))
  }

  /** The store may receive the entries of the request map in any order;
      each order performs the same save. */
  lemma SaveWindowPositionAnyOrder(p: Preferences, x: int, y: int, v: seq<Assignment>)
    requires multiset(v) == multiset(SaveWindowPositionRequest(x, y))
    ensures Apply(p, v) == SaveWindowPosition(p, x, y)
  {
    ApplyOrderIrrelevant(p, SaveWindowPositionRequest(x, y), v);
  }

  /** A saved position at which the stored window fits is read back unchanged. */
  lemma SaveThenGetWindowPosition(p: Preferences, c: Consts, lookup: Option<seq<Screen>>, x: int, y: int)
    requires x > 0 && y > 0
    requires FitsOnScreen(p.behavior.(windowPosX := x, windowPosY := y), ScreenSize(c, lookup))
    ensures GetWindowPosition(SaveWindowPosition(p, x, y), c, lookup) == Point(x, y)
  {
  }

  /** A position with one non-positive coordinate is stored (when the other
      is positive), but the reader does not keep it: it returns the centred
      point. */
  lemma EdgePositionIsRecentred(p: Preferences, c: Consts, lookup: Option<seq<Screen>>, x: int, y: int)
    requires x <= 0 || y <= 0
    requires x > 0 || y > 0
    ensures var q := SaveWindowPosition(p, x, y);
            q.behavior.windowPosX == x && q.behavior.windowPosY == y
    ensures var q, s := SaveWindowPosition(p, x, y), ScreenSize(c, lookup);
            GetWindowPosition(q, c, lookup)
              == Point(Half(s.width - p.behavior.windowWidth), Half(s.height - p.behavior.windowHeight))
  {
  }

  // -------------------------------------------------------------- scan size

  function GetScanSize(p: Preferences, c: Consts): (size: int)
    ensures size > 0
    ensures p.general.scanSize > 0 ==> size == p.general.scanSize
    ensures p.general.scanSize <= 0 ==> size == c.defaultScanSize
  {
    OrDefault(p.general.scanSize, c.defaultScanSize)
  }

  /** Saving window geometry never changes the scan size read back. */
  lemma WindowSavesKeepScanSize(p: Preferences, c: Consts, width: int, height: int, maximised: bool, x: int, y: int)
    ensures GetScanSize(SaveWindowSize(p, c, width, height, maximised), c) == GetScanSize(p, c)
    ensures GetScanSize(SaveWindowPosition(p, x, y), c) == GetScanSize(p, c)
  {
  }
}
