/** The capture session as the window procedure drives it: one immutable
    record of the program's globals and a transition function per message.
    Capturing the screen, enumerating monitors and reading the cursor are
    inputs of the events that need them; drawing, cursor warping, timers and
    the PNG and clipboard output are not modelled, except that a confirmed
    selection reports the crop saveSelection would copy. */
module Session {
  import opened Wrappers
  import opened Win32
  import opened Geometry
  import opened Snap
  import opened Selection
  import opened Settings

  /** The settings a session works with, each with its "set by policy" flag
      where the program keeps one. */
  datatype Config = Config(
    delay: int, delayGpo: bool,
    saveToClipboard: int, clipboardGpo: bool,
    saveToFile: int, fileGpo: bool,
    alternativeColors: int,
    displayInfo: int, displayInfoGpo: bool,
    path: string, pathGpo: bool)

  /** The program's globals: state, selection, stored selection, zoom scale,
      settings, the screenshot bitmap, the monitor rectangles with the index
      chosen by 'M', the virtual-screen origin of the window, the last cursor
      position OnMouseMove saw, and the registry the settings live in. */
  datatype Session = Session(
    state: AppState,
    sel: Rect,
    stored: Rect,
    zoom: uint32,
    config: Config,
    shot: Option<Image>,
    monitors: seq<Rect>,
    selectedMonitor: nat,
    origin: (int, int),
    lastMouse: (int, int),
    reg: Registry)

  /** What the screen offers when a capture starts: the bitmap (None when
      capturing failed), the monitor rectangles in enumeration order, the
      top-left corner of the virtual screen, and the cursor position. */
  datatype Capture = Capture(shot: Option<Image>, monitors: seq<Rect>, origin: (int, int), cursor: (int, int))

  /** Menu commands that change the session. */
  datatype Command = ToggleClipboard | ToggleFile | ToggleAlternativeColors | ToggleDisplayInformation | CancelCapture

  /** The messages the model handles. `gateFree` is the outcome of the
      non-blocking test of the modal-dialog semaphore; a left click and
      Enter both arrive as NextState, the click with its position. */
  datatype Event =
    | PrintScreen(gateFree: bool, capture: Capture)
    | Started(gateFree: bool, capture: Capture)
    | GoToTray
    | NextState(click: Option<(int, int)>)
    | KeyDown(vk: int, shift: bool, cursor: (int, int))
    | SysKeyDown(vk: int, alt: bool, shift: bool)
    | Char(ch: int)
    | MouseMove(x: int, y: int)
    | MouseWheel(delta: int)
    | MenuCommand(cmd: Command)
    | TrayMenu(gateFree: bool)
    | DisplayChange

  /** The session after a message, and the area saved if the message confirmed a selection. */
  datatype Outcome = Outcome(session: Session, saved: Option<Crop>)

  /** The globals before the first capture: the compiled-in defaults,
      except that the clipboard and file settings, with their policy flags,
      are read from the registry before the message loop starts. */
  function Initial(reg: Registry): (s: Session)
    ensures s.state == TrayIcon && !IsSelectionValid(s.sel) && !IsSelectionValid(s.stored)
    ensures s.zoom == DefaultZoomScaleValue && s.shot.None?
    ensures (s.config.saveToClipboard, s.config.clipboardGpo) == (Resolve(reg, SaveToClipboard).value, Resolve(reg, SaveToClipboard).gpo)
    ensures (s.config.saveToFile, s.config.fileGpo) == (Resolve(reg, SaveToFile).value, Resolve(reg, SaveToFile).gpo)
    ensures s.config.delay == DefaultScreenshotDelay && !s.config.delayGpo && !s.config.pathGpo
    ensures s.config.alternativeColors == 0 && s.config.displayInfo == 0 && !s.config.displayInfoGpo
    ensures s.reg == reg
  {
    var clip := Resolve(reg, SaveToClipboard);
    var file := Resolve(reg, SaveToFile);
    Session(TrayIcon, UnsetRect, UnsetRect, DefaultZoomScaleValue,
            Config(DefaultScreenshotDelay, false, clip.value, clip.gpo, file.value, file.gpo, 0, 0, false, "", false),
            None, [], 0, (0, 0), (0xffff, 0xffff), reg)
  }

  /** The clipboard and file settings the session holds, with their policy
      flags, are what the registry cascade currently yields. The program
      re-reads them before it offers their toggles; in the model the
      registry changes only through the program's own writes, which keep
      this agreement. */
  predicate Synced(s: Session) {
    && s.config.saveToClipboard == Resolve(s.reg, SaveToClipboard).value
    && s.config.clipboardGpo == Resolve(s.reg, SaveToClipboard).gpo
    && s.config.saveToFile == Resolve(s.reg, SaveToFile).value
    && s.config.fileGpo == Resolve(s.reg, SaveToFile).gpo
  }

  function Bitmap(s: Session): Option<Extent> {
    ExtentOfShot(s.shot)
  }

  /** A screenshot of at least one pixel is present. */
  predicate HasPixels(s: Session) {
    s.shot.Some? && Width(s.shot.value) >= 1 && Height(s.shot.value) >= 1
  }

  /** The invariant every reachable session keeps: the zoom scale and the
      settings are in their ranges, point A lies in the screenshot whenever
      a point is being chosen, and the whole selection lies in it while A or
      B is edited. */
  predicate Inv(s: Session) {
    && 1 <= s.zoom <= MaxZoomScale
    && 1 <= s.config.delay <= MaxScreenshotDelay
    && 0 <= s.config.saveToClipboard <= 1
    && 0 <= s.config.saveToFile <= 1
    && 0 <= s.config.alternativeColors <= 1
    && 0 <= s.config.displayInfo <= 1
    && (HasPixels(s) && s.state != TrayIcon ==> InImage(s.shot.value, s.sel.left, s.sel.top))
    && (HasPixels(s) && Editing(s.state) ==> InBitmap(s.sel, ExtentOf(s.shot.value)))
  }

  lemma InitialInv(reg: Registry)
    ensures Inv(Initial(reg))
  {
  }

  // ---------------------------------------------------------------- zoom

  /** WM_ZOOMIN on the DWORD zoom scale: one step larger, saturating at 32. */
  function ZoomIn(z: uint32): (z': uint32)
    ensures 1 <= z < MaxZoomScale ==> z' == z + 1
    ensures MaxZoomScale <= z < DwordRange - 1 ==> z' == MaxZoomScale
    ensures z' <= MaxZoomScale
  {
    var next := (z + 1) % DwordRange;
    if next > MaxZoomScale then MaxZoomScale else next
  }

  /** WM_ZOOMOUT on the DWORD zoom scale: one step smaller, saturating at 1. */
  function ZoomOut(z: uint32): (z': uint32)
    ensures 2 <= z ==> z' == z - 1
    ensures z == 1 ==> z' == 1
    ensures z' >= 1
  {
    var next := (z - 1) % DwordRange;
    if next <= 1 then 1 else next
  }

  /** Inside the reachable range the two zoom messages undo each other. */
  lemma ZoomRoundTrip(z: uint32)
    requires 1 <= z <= MaxZoomScale
    ensures z >= 2 ==> ZoomIn(ZoomOut(z)) == z
    ensures z < MaxZoomScale ==> ZoomOut(ZoomIn(z)) == z
    ensures 1 <= ZoomIn(z) <= MaxZoomScale && 1 <= ZoomOut(z) <= MaxZoomScale
  {
  }

  /** From a reachable scale, `k` steps in or out move the scale by `k`
      until it sticks at 32 or at 1. */
  lemma {:induction false} ZoomSaturates(z: uint32, k: nat)
    requires 1 <= z <= MaxZoomScale
    ensures ZoomInN(z, k) == Min(z + k, MaxZoomScale)
    ensures ZoomOutN(z, k) == Max(z - k, 1)
  {
    if k > 0 {
      ZoomSaturates(z, k - 1);
    }
  }

  /** `k` zoom-in messages. */
  function ZoomInN(z: uint32, k: nat): uint32 {
    if k == 0 then z else ZoomIn(ZoomInN(z, k - 1))
  }

  /** `k` zoom-out messages. */
  function ZoomOutN(z: uint32, k: nat): uint32 {
    if k == 0 then z else ZoomOut(ZoomOutN(z, k - 1))
  }

  /** WM_MOUSEWHEEL: a forward turn zooms in, anything else zooms out. */
  function OnWheel(s: Session, delta: int): (s': Session)
    ensures s' == s.(zoom := s'.zoom)
    ensures delta > 0 ==> s'.zoom == ZoomIn(s.zoom)
    ensures delta <= 0 ==> s'.zoom == ZoomOut(s.zoom)
  {
    if delta > 0 then s.(zoom := ZoomIn(s.zoom)) else s.(zoom := ZoomOut(s.zoom))
  }

  // ------------------------------------------------------- capture start

  /** The settings as startCaptureGUI re-reads them: every value and flag
      is the cascade's result for its setting, and the folder is the
      resolved screenshot path. */
  function ReadConfig(reg: Registry): (c: Config)
    ensures 1 <= c.delay <= MaxScreenshotDelay
    ensures c.saveToClipboard <= 1 && c.saveToFile <= 1 && c.alternativeColors <= 1 && c.displayInfo <= 1
    ensures (c.delay, c.delayGpo) == (Resolve(reg, ScreenshotDelay).value, Resolve(reg, ScreenshotDelay).gpo)
    ensures (c.saveToClipboard, c.clipboardGpo) == (Resolve(reg, SaveToClipboard).value, Resolve(reg, SaveToClipboard).gpo)
    ensures (c.saveToFile, c.fileGpo) == (Resolve(reg, SaveToFile).value, Resolve(reg, SaveToFile).gpo)
    ensures c.alternativeColors == Resolve(reg, UseAlternativeColors).value
    ensures (c.displayInfo, c.displayInfoGpo) == (Resolve(reg, DisplayInternalInformation).value, Resolve(reg, DisplayInternalInformation).gpo)
    ensures (c.path, c.pathGpo) == (ResolveScreenshotPath(reg.paths, reg.directories, reg.exeDir).path, ResolveScreenshotPath(reg.paths, reg.directories, reg.exeDir).gpo)
    ensures c.clipboardGpo <==> (LayersOf(reg, SaveToClipboard).hkcuPolicy.Some? || LayersOf(reg, SaveToClipboard).hklmPolicy.Some?)
    ensures c.fileGpo <==> (LayersOf(reg, SaveToFile).hkcuPolicy.Some? || LayersOf(reg, SaveToFile).hklmPolicy.Some?)
    ensures c.delayGpo <==> (LayersOf(reg, ScreenshotDelay).hkcuPolicy.Some? || LayersOf(reg, ScreenshotDelay).hklmPolicy.Some?)
    ensures c.displayInfoGpo <==> (LayersOf(reg, DisplayInternalInformation).hkcuPolicy.Some? || LayersOf(reg, DisplayInternalInformation).hklmPolicy.Some?)
    ensures c.pathGpo <==> (reg.paths.hkcuPolicy.Some? || reg.paths.hklmPolicy.Some?)
  {
    var delay := Resolve(reg, ScreenshotDelay);
    var clip := Resolve(reg, SaveToClipboard);
    var file := Resolve(reg, SaveToFile);
    var info := Resolve(reg, DisplayInternalInformation);
    var path := ResolveScreenshotPath(reg.paths, reg.directories, reg.exeDir);
    Config(delay.value, delay.gpo, clip.value, clip.gpo, file.value, file.gpo,
           Resolve(reg, UseAlternativeColors).value, info.value, info.gpo, path.path, path.gpo)
  }

  /** WM_STARTED: when no modal dialog holds the gate, take the screenshot,
      re-read the settings and the stored selection, and seed point
      selection from the stored selection or the cursor. The registry is
      only read. */
  function StartCapture(s: Session, gateFree: bool, c: Capture): (s': Session)
    ensures !gateFree ==> s' == s
    ensures gateFree ==>
      && s'.state != TrayIcon
      && s'.shot == c.shot && s'.monitors == c.monitors && s'.origin == c.origin
      && s'.stored == ReadStoredSelection(s.reg)
      && s'.zoom == Resolve(s.reg, DefaultZoomScale).value
      && s'.reg == s.reg
      && s'.config == ReadConfig(s.reg)
      && s' == s.(state := s'.state, sel := s'.sel, stored := s'.stored, zoom := s'.zoom, config := s'.config,
                  shot := s'.shot, monitors := s'.monitors, origin := s'.origin)
    ensures gateFree && IsSelectionValid(ReadStoredSelection(s.reg)) ==>
      s'.state == PointB && s'.sel == ClampRect(ReadStoredSelection(s.reg), ExtentOfShot(c.shot))
    ensures gateFree && !IsSelectionValid(ReadStoredSelection(s.reg)) ==>
      && s'.state == FirstPoint
      && s'.sel == Rect(LimitX(c.cursor.0 - c.origin.0, ExtentOfShot(c.shot)),
                        LimitY(c.cursor.1 - c.origin.1, ExtentOfShot(c.shot)), Uninitialized, Uninitialized)
  {
    if !gateFree then s
    else
      var stored := ReadStoredSelection(s.reg);
      var seeded := Seed(stored, c.cursor, c.origin, ExtentOfShot(c.shot));
      s.(state := seeded.state, sel := seeded.sel, stored := stored,
         zoom := Resolve(s.reg, DefaultZoomScale).value, config := ReadConfig(s.reg),
         shot := c.shot, monitors := c.monitors, origin := c.origin)
  }

  /** The PrintScreen hook posts WM_STARTED only while the program sits in the tray. */
  function OnPrintScreen(s: Session, gateFree: bool, c: Capture): (s': Session)
    ensures s.state != TrayIcon ==> s' == s
    ensures s.state == TrayIcon ==> s' == StartCapture(s, gateFree, c)
  {
    if s.state == TrayIcon then StartCapture(s, gateFree, c) else s
  }

  // ------------------------------------------------------ confirm, cancel

  /** WM_GOTOTRAY: hide the window; only the state changes. */
  function ToTray(s: Session): (s': Session)
    ensures s'.state == TrayIcon && s' == s.(state := TrayIcon)
  {
    s.(state := TrayIcon)
  }

  /** saveSelection's crop of the current selection, if there is a bitmap to copy from. */
  function SavedArea(s: Session): (c: Option<Crop>)
    ensures c.Some? <==> s.shot.Some?
  {
    if s.shot.Some? then Some(CropToBitmap(s.sel, ExtentOf(s.shot.value))) else None
  }

  /** WM_NEXTSTATE (Enter or a left click). Choosing the first point fixes
      point A (at the click, clamped, if there was one), collapses B onto it,
      moves on to editing B and resets the zoom scale from the settings.
      Editing A or B ends the capture and saves the selection, but only when
      it has nonzero width and height; otherwise nothing happens, and in the
      tray nothing happens either. */
  function Confirm(s: Session, click: Option<(int, int)>): (o: Outcome)
    ensures s.state == FirstPoint ==>
      && o.saved.None?
      && o.session.state == PointB
      && o.session.sel.right == o.session.sel.left && o.session.sel.bottom == o.session.sel.top
      && (click.None? ==> (o.session.sel.left, o.session.sel.top) == (s.sel.left, s.sel.top))
      && (click.Some? ==> (o.session.sel.left, o.session.sel.top) == (LimitX(click.value.0, Bitmap(s)), LimitY(click.value.1, Bitmap(s))))
      && o.session.zoom == Resolve(s.reg, DefaultZoomScale).value
      && o.session == s.(state := PointB, sel := o.session.sel, zoom := o.session.zoom)
    ensures Editing(s.state) && s.sel.left != s.sel.right && s.sel.top != s.sel.bottom ==>
      o == Outcome(s.(state := TrayIcon), SavedArea(s))
    ensures !(Editing(s.state) && s.sel.left != s.sel.right && s.sel.top != s.sel.bottom) && s.state != FirstPoint ==>
      o == Outcome(s, None)
  {
    if s.state == FirstPoint then
      var (left, top) :=
        if click.Some? then (LimitX(click.value.0, Bitmap(s)), LimitY(click.value.1, Bitmap(s)))
        else (s.sel.left, s.sel.top);
      Outcome(s.(state := PointB, sel := Rect(left, top, left, top),
                 zoom := Resolve(s.reg, DefaultZoomScale).value), None)
    else if Editing(s.state) && s.sel.left != s.sel.right && s.sel.top != s.sel.bottom then
      Outcome(ToTray(s), SavedArea(s))
    else
      Outcome(s, None)
  }

  // ------------------------------------------------------------- keys

  /** Tab: switch between editing A and editing B. */
  function SwapPoints(s: Session): (s': Session)
    ensures s.state == PointA ==> s' == s.(state := PointB)
    ensures s.state == PointB ==> s' == s.(state := PointA)
    ensures !Editing(s.state) ==> s' == s
  {
    if s.state == PointA then s.(state := PointB)
    else if s.state == PointB then s.(state := PointA)
    else s
  }

  /** Tab twice is no change at all. */
  lemma SwapPointsTwice(s: Session)
    ensures SwapPoints(SwapPoints(s)) == s
  {
  }

  /** 'P' (pixelate) and 'B' (mark): after the screenshot area is changed,
      point selection starts over at point A with B unset. */
  function RestartAtPointA(s: Session): (s': Session)
    ensures Editing(s.state) ==>
      && s' == s.(state := FirstPoint, sel := s'.sel)
      && (s'.sel.left, s'.sel.top) == (s.sel.left, s.sel.top)
      && s'.sel.right == Uninitialized && s'.sel.bottom == Uninitialized
      && !IsSelectionValid(s'.sel)
    ensures !Editing(s.state) ==> s' == s
  {
    if Editing(s.state) then
      s.(state := FirstPoint, sel := s.sel.(right := Uninitialized, bottom := Uninitialized))
    else s
  }

  /** Insert: remember a valid selection, in the session and in the registry. */
  function StoreCurrent(s: Session): (s': Session)
    ensures IsSelectionValid(s.sel) ==> s' == s.(stored := s.sel, reg := s'.reg) && s'.stored == s.sel
    ensures IsSelectionValid(s.sel) && IsLong(s.sel.left) && IsLong(s.sel.top) && IsLong(s.sel.right) && IsLong(s.sel.bottom) ==>
      ReadStoredSelection(s'.reg) == s.sel
    ensures !IsSelectionValid(s.sel) ==> s' == s
  {
    if IsSelectionValid(s.sel) then
      var s' := s.(stored := s.sel, reg := StoreSelection(s.reg, s.sel));
      assert IsLong(s.sel.left) && IsLong(s.sel.top) && IsLong(s.sel.right) && IsLong(s.sel.bottom) ==>
        ReadStoredSelection(s'.reg) == s.sel by {
        if IsLong(s.sel.left) && IsLong(s.sel.top) && IsLong(s.sel.right) && IsLong(s.sel.bottom) {
          StoredSelectionRoundTrip(s.reg, s.sel);
        }
      }
      s'
    else s
  }

  /** Delete: forget the stored selection everywhere and start point
      selection over at the cursor, exactly as a capture without a stored
      selection starts. */
  function ClearStored(s: Session, cursor: (int, int)): (s': Session)
    ensures s'.stored == UnsetRect && ReadStoredSelection(s'.reg) == UnsetRect
    ensures s'.state == FirstPoint
    ensures s'.sel == Rect(LimitX(cursor.0 - s.origin.0, Bitmap(s)), LimitY(cursor.1 - s.origin.1, Bitmap(s)), Uninitialized, Uninitialized)
    ensures s' == s.(state := FirstPoint, sel := s'.sel, stored := UnsetRect, reg := s'.reg)
  {
    var seeded := Seed(UnsetRect, cursor, s.origin, Bitmap(s));
    var reg' := StoreSelection(s.reg, UnsetRect);
    StoredSelectionRoundTrip(s.reg, UnsetRect);
    s.(state := seeded.state, sel := seeded.sel, stored := UnsetRect, reg := reg')
  }

  /** Home: reopen a valid stored selection, clamped, for editing point B. */
  function RestoreStored(s: Session): (s': Session)
    ensures IsSelectionValid(s.stored) ==> s' == s.(state := PointB, sel := ClampRect(s.stored, Bitmap(s)))
    ensures !IsSelectionValid(s.stored) ==> s' == s
  {
    if IsSelectionValid(s.stored) then s.(state := PointB, sel := ClampRect(s.stored, Bitmap(s)))
    else s
  }

  /** WM_SELECTALL: the whole screenshot, for editing point B. Without a
      screenshot nothing happens. */
  function SelectWhole(s: Session): (s': Session)
    ensures s.shot.None? ==> s' == s
    ensures HasPixels(s) ==>
      s' == s.(state := PointB, sel := Rect(0, 0, Width(s.shot.value) - 1, Height(s.shot.value) - 1))
  {
    match SelectAll(Bitmap(s))
    case None => s
    case Some(r) => s.(state := PointB, sel := r)
  }

  /** 'M': the next monitor's area, for editing point B. Without monitors nothing happens. */
  function SelectNextMonitor(s: Session): (s': Session)
    ensures |s.monitors| == 0 ==> s' == s
    ensures |s.monitors| > 0 ==>
      && s' == s.(state := PointB, sel := s'.sel, selectedMonitor := s'.selectedMonitor)
      && s'.selectedMonitor == NextIndex(s.selectedMonitor, |s.monitors|)
      && s'.sel == NextMonitor(s.monitors, s.selectedMonitor, s.origin, Bitmap(s)).value.sel
    ensures |s.monitors| > 0 && HasPixels(s) ==> InBitmap(s'.sel, ExtentOf(s.shot.value))
  {
    match NextMonitor(s.monitors, s.selectedMonitor, s.origin, Bitmap(s))
    case None => s
    case Some(p) => s.(state := PointB, sel := p.sel, selectedMonitor := p.index)
  }

  // ------------------------------------------------------------ toggles

  /** A menu command (also sent by 'C', 'F', 'S' and F1). The clipboard,
      file and information toggles do nothing while a policy sets the
      value; otherwise each negates its flag and writes the new value to the
      user's key. The colour toggle has no policy. Cancel goes to the tray. */
  function RunCommand(s: Session, cmd: Command): (s': Session)
    ensures cmd == ToggleClipboard && s.config.clipboardGpo ==> s' == s
    ensures cmd == ToggleClipboard && !s.config.clipboardGpo ==>
      && s'.config == s.config.(saveToClipboard := CNot(s.config.saveToClipboard))
      && s'.reg == StoreDword(s.reg, SaveToClipboard, CNot(s.config.saveToClipboard))
    ensures cmd == ToggleFile && s.config.fileGpo ==> s' == s
    ensures cmd == ToggleFile && !s.config.fileGpo ==>
      && s'.config == s.config.(saveToFile := CNot(s.config.saveToFile))
      && s'.reg == StoreDword(s.reg, SaveToFile, CNot(s.config.saveToFile))
    ensures cmd == ToggleDisplayInformation && s.config.displayInfoGpo ==> s' == s
    ensures cmd == ToggleDisplayInformation && !s.config.displayInfoGpo ==>
      && s'.config == s.config.(displayInfo := CNot(s.config.displayInfo))
      && s'.reg == StoreDword(s.reg, DisplayInternalInformation, CNot(s.config.displayInfo))
    ensures cmd == ToggleAlternativeColors ==>
      && s'.config == s.config.(alternativeColors := CNot(s.config.alternativeColors))
      && s'.reg == StoreDword(s.reg, UseAlternativeColors, CNot(s.config.alternativeColors))
    ensures cmd != CancelCapture ==> s' == s.(config := s'.config, reg := s'.reg)
    ensures cmd == CancelCapture ==> s' == ToTray(s)
  {
    var c := s.config;
    match cmd
    case ToggleClipboard =>
      if c.clipboardGpo then s
      else
        var v := CNot(c.saveToClipboard);
        s.(config := c.(saveToClipboard := v), reg := StoreDword(s.reg, SaveToClipboard, v))
    case ToggleFile =>
      if c.fileGpo then s
      else
        var v := CNot(c.saveToFile);
        s.(config := c.(saveToFile := v), reg := StoreDword(s.reg, SaveToFile, v))
    case ToggleAlternativeColors =>
      var v := CNot(c.alternativeColors);
      s.(config := c.(alternativeColors := v), reg := StoreDword(s.reg, UseAlternativeColors, v))
    case ToggleDisplayInformation =>
      if c.displayInfoGpo then s
      else
        var v := CNot(c.displayInfo);
        s.(config := c.(displayInfo := v), reg := StoreDword(s.reg, DisplayInternalInformation, v))
    case CancelCapture => ToTray(s)
  }

  /** A right click on the tray icon: when no modal dialog holds the gate,
      the file, clipboard and delay settings and the screenshot folder are
      re-read, with their policy flags, before the menu is shown. Nothing
      else changes. */
  function OpenTrayMenu(s: Session, gateFree: bool): (s': Session)
    ensures !gateFree ==> s' == s
    ensures gateFree ==>
      var c := ReadConfig(s.reg);
      && s' == s.(config := s'.config)
      && s'.config == s.config.(saveToFile := c.saveToFile, fileGpo := c.fileGpo,
                                saveToClipboard := c.saveToClipboard, clipboardGpo := c.clipboardGpo,
                                delay := c.delay, delayGpo := c.delayGpo, path := c.path, pathGpo := c.pathGpo)
    ensures gateFree ==> Synced(s')
  {
    if !gateFree then s
    else
      var c := ReadConfig(s.reg);
      s.(config := s.config.(saveToFile := c.saveToFile, fileGpo := c.fileGpo,
                             saveToClipboard := c.saveToClipboard, clipboardGpo := c.clipboardGpo,
                             delay := c.delay, delayGpo := c.delayGpo, path := c.path, pathGpo := c.pathGpo))
  }

  /** Toggling a boolean setting twice restores it. */
  lemma ToggleTwice(s: Session, cmd: Command)
    requires cmd != CancelCapture
    requires 0 <= s.config.saveToClipboard <= 1 && 0 <= s.config.saveToFile <= 1
    requires 0 <= s.config.alternativeColors <= 1 && 0 <= s.config.displayInfo <= 1
    ensures RunCommand(RunCommand(s, cmd), cmd).config == s.config
  {
  }

  /** A toggle outlives the session: when the value was not set by policy
      the next read of the registry (the next capture) finds the toggled value. */
  lemma ToggleIsPersisted(s: Session)
    requires s.config.clipboardGpo == Resolve(s.reg, SaveToClipboard).gpo
    requires !s.config.clipboardGpo
    ensures var s' := RunCommand(s, ToggleClipboard);
      ReadConfig(s'.reg).saveToClipboard == s'.config.saveToClipboard
  {
    var s' := RunCommand(s, ToggleClipboard);
    var l := LayersOf(s'.reg, SaveToClipboard);
    assert l.hkcuUser == Some(CNot(s.config.saveToClipboard));
    assert l.hkcuPolicy.None? && l.hklmPolicy.None?;
  }

  // ------------------------------------------------------- dispatching

  /** WM_KEYDOWN: first the arrow keys move the active point by one pixel,
      then the remaining keys are dispatched. No key is ignored in the tray
      state; the hidden window simply does not receive keys. */
  function OnKeyDown(s: Session, vk: int, shift: bool, cursor: (int, int)): (s': Session)
    ensures DirectionOf(vk).Some? ==> s' == s.(sel := CheckCursorButtons(s.state, s.sel, vk, 1, shift, s.shot))
    ensures DirectionOf(vk).None? ==> s' == KeyCommand(s, vk, cursor)
  {
    KeyCommand(s.(sel := CheckCursorButtons(s.state, s.sel, vk, 1, shift, s.shot)), vk, cursor)
  }

  /** The keys of WM_KEYDOWN other than the arrows. Each key touches only
      its own part of the session: the page keys only the zoom scale, the
      toggle keys only the settings and the registry, the selection keys
      only the state, the selection and the monitor index, and the
      stored-selection keys leave the settings and the zoom alone. Keys
      without a handler change nothing. */
  function KeyCommand(s: Session, vk: int, cursor: (int, int)): (s': Session)
    ensures vk !in {VkNext, VkPrior, KeyA, KeyM, KeyC, KeyF, KeyS, KeyP, KeyB, VkInsert, VkDelete, VkHome, VkF1, VkTab} ==> s' == s
    ensures vk in {VkNext, VkPrior} ==> s' == s.(zoom := s'.zoom)
    ensures vk in {KeyC, KeyF, KeyS, VkF1} ==> s' == s.(config := s'.config, reg := s'.reg)
    ensures vk in {KeyA, KeyM, KeyP, KeyB, VkHome, VkTab} ==> s' == s.(state := s'.state, sel := s'.sel, selectedMonitor := s'.selectedMonitor)
    ensures vk in {VkInsert, VkDelete} ==> s' == s.(state := s'.state, sel := s'.sel, stored := s'.stored, reg := s'.reg)
    ensures vk in {VkInsert, VkDelete} ==> s'.reg.paths == s.reg.paths && forall t :: !IsStoredSelection(t) ==> LayersOf(s'.reg, t) == LayersOf(s.reg, t)
  {
    if vk == VkNext then s.(zoom := ZoomOut(s.zoom))
    else if vk == VkPrior then s.(zoom := ZoomIn(s.zoom))
    else if vk == KeyA then SelectWhole(s)
    else if vk == KeyM then SelectNextMonitor(s)
    else if vk == KeyC then RunCommand(s, ToggleClipboard)
    else if vk == KeyF then RunCommand(s, ToggleFile)
    else if vk == KeyS then RunCommand(s, ToggleAlternativeColors)
    else if vk == KeyP || vk == KeyB then RestartAtPointA(s)
    else if vk == VkInsert then StoreCurrent(s)
    else if vk == VkDelete then ClearStored(s, cursor)
    else if vk == VkHome then RestoreStored(s)
    else if vk == VkF1 then RunCommand(s, ToggleDisplayInformation)
    else if vk == VkTab then SwapPoints(s)
    else s
  }

  /** WM_SYSKEYDOWN: with Alt held an arrow key moves the active point by
      ten pixels. Alt+F4 closes the program, which is outside the model. */
  function OnSysKeyDown(s: Session, vk: int, alt: bool, shift: bool): (s': Session)
    ensures alt && vk != VkF4 ==> s' == s.(sel := CheckCursorButtons(s.state, s.sel, vk, 10, shift, s.shot))
    ensures !alt || vk == VkF4 ==> s' == s
  {
    if alt && vk != VkF4 then s.(sel := CheckCursorButtons(s.state, s.sel, vk, 10, shift, s.shot))
    else s
  }

  /** WM_CHAR: Escape cancels, Return confirms, '+' and '-' grow and shrink the selection. */
  function OnChar(s: Session, ch: int): (o: Outcome)
    ensures ch == ChEscape ==> o == Outcome(ToTray(s), None)
    ensures ch == ChReturn ==> o == Confirm(s, None)
    ensures ch == ChPlus ==> o == Outcome(s.(sel := ResizeSelection(s.state, s.sel, 1, Bitmap(s))), None)
    ensures ch == ChMinus ==> o == Outcome(s.(sel := ResizeSelection(s.state, s.sel, -1, Bitmap(s))), None)
    ensures ch !in {ChEscape, ChReturn, ChPlus, ChMinus} ==> o == Outcome(s, None)
  {
    if ch == ChEscape then Outcome(ToTray(s), None)
    else if ch == ChReturn then Confirm(s, None)
    else if ch == ChPlus then Outcome(s.(sel := ResizeSelection(s.state, s.sel, 1, Bitmap(s))), None)
    else if ch == ChMinus then Outcome(s.(sel := ResizeSelection(s.state, s.sel, -1, Bitmap(s))), None)
    else Outcome(s, None)
  }

  /** WM_MOUSEMOVE. */
  function OnCursor(s: Session, x: int, y: int): (s': Session)
    ensures s' == s.(sel := s'.sel, lastMouse := s'.lastMouse)
    ensures (x, y) != s.lastMouse && s.state != TrayIcon ==>
      ActivePoint(s.state, s'.sel) == (LimitX(x, Bitmap(s)), LimitY(y, Bitmap(s)))
  {
    var m := OnMouseMove(s.state, s.sel, s.lastMouse, x, y, Bitmap(s));
    s.(sel := m.sel, lastMouse := m.last)
  }

  /** The window procedure. Only a confirmation from A or B saves anything,
      and it always ends in the tray with the crop of the selection it left. */
  function Step(s: Session, e: Event): (o: Outcome)
    ensures o.saved.Some? ==>
      && Editing(s.state) && s.sel.left != s.sel.right && s.sel.top != s.sel.bottom
      && o.session.state == TrayIcon && o.session.sel == s.sel
      && s.shot.Some? && o.saved.value == CropToBitmap(s.sel, ExtentOf(s.shot.value))
    ensures e.DisplayChange? ==> o.saved.None? && o.session == s.(state := TrayIcon)
  {
    match e
    case PrintScreen(gateFree, c) => Outcome(OnPrintScreen(s, gateFree, c), None)
    case Started(gateFree, c) => Outcome(StartCapture(s, gateFree, c), None)
    case GoToTray => Outcome(ToTray(s), None)
    case NextState(click) => Confirm(s, click)
    case KeyDown(vk, shift, cursor) => Outcome(OnKeyDown(s, vk, shift, cursor), None)
    case SysKeyDown(vk, alt, shift) => Outcome(OnSysKeyDown(s, vk, alt, shift), None)
    case Char(ch) => OnChar(s, ch)
    case MouseMove(x, y) => Outcome(OnCursor(s, x, y), None)
    case MouseWheel(delta) => Outcome(OnWheel(s, delta), None)
    case MenuCommand(cmd) => Outcome(RunCommand(s, cmd), None)
    case TrayMenu(gateFree) => Outcome(OpenTrayMenu(s, gateFree), None)
    case DisplayChange => Outcome(if s.state != TrayIcon then ToTray(s) else s, None)
  }

  // ------------------------------------------------------------- lemmas

  /** An arrow key, plain or with Alt, keeps the invariant. */
  lemma CursorKeysKeepInv(s: Session, vk: int, step: int, shift: bool)
    requires Inv(s)
    ensures Inv(s.(sel := CheckCursorButtons(s.state, s.sel, vk, step, shift, s.shot)))
  {
    if HasPixels(s) && s.state != TrayIcon {
      CursorKeysStayInBitmap(s.state, s.sel, vk, step, shift, s.shot.value);
    }
  }

  /** A freshly seeded selection satisfies the invariant's placement part. */
  lemma SeedInBitmap(stored: Rect, cursor: (int, int), origin: (int, int), img: Image)
    requires Width(img) >= 1 && Height(img) >= 1
    ensures var sd := Seed(stored, cursor, origin, Some(ExtentOf(img)));
      && sd.state != TrayIcon
      && InImage(img, sd.sel.left, sd.sel.top)
      && (Editing(sd.state) ==> InBitmap(sd.sel, ExtentOf(img)))
  {
  }

  lemma StartKeepsInv(s: Session, gateFree: bool, c: Capture)
    requires Inv(s)
    ensures Inv(StartCapture(s, gateFree, c))
  {
    if gateFree {
      var s' := StartCapture(s, gateFree, c);
      var stored := ReadStoredSelection(s.reg);
      var sd := Seed(stored, c.cursor, c.origin, ExtentOfShot(c.shot));
      assert s'.state == sd.state && s'.sel == sd.sel;
      assert s'.config == ReadConfig(s.reg);
      if HasPixels(s') {
        SeedInBitmap(stored, c.cursor, c.origin, c.shot.value);
      }
    }
  }

  lemma ConfirmKeepsInv(s: Session, click: Option<(int, int)>)
    requires Inv(s)
    ensures Inv(Confirm(s, click).session)
  {
  }

  lemma SelectWholeKeepsInv(s: Session)
    requires Inv(s)
    ensures Inv(SelectWhole(s))
  {
  }

  lemma SelectNextMonitorKeepsInv(s: Session)
    requires Inv(s)
    ensures Inv(SelectNextMonitor(s))
  {
  }

  lemma RunCommandKeepsInv(s: Session, cmd: Command)
    requires Inv(s)
    ensures Inv(RunCommand(s, cmd))
  {
  }

  lemma StoreCurrentKeepsInv(s: Session)
    requires Inv(s)
    ensures Inv(StoreCurrent(s))
  {
  }

  lemma ClearStoredKeepsInv(s: Session, cursor: (int, int))
    requires Inv(s)
    ensures Inv(ClearStored(s, cursor))
  {
  }

  lemma RestoreStoredKeepsInv(s: Session)
    requires Inv(s)
    ensures Inv(RestoreStored(s))
  {
  }

  lemma KeyCommandKeepsInv(s: Session, vk: int, cursor: (int, int))
    requires Inv(s)
    ensures Inv(KeyCommand(s, vk, cursor))
  {
    var s' := KeyCommand(s, vk, cursor);
    if vk == VkNext || vk == VkPrior {
    } else if vk == KeyA {
      SelectWholeKeepsInv(s);
    } else if vk == KeyM {
      SelectNextMonitorKeepsInv(s);
    } else if vk == KeyC {
      RunCommandKeepsInv(s, ToggleClipboard);
    } else if vk == KeyF {
      RunCommandKeepsInv(s, ToggleFile);
    } else if vk == KeyS {
      RunCommandKeepsInv(s, ToggleAlternativeColors);
    } else if vk == KeyP || vk == KeyB {
      assert s' == RestartAtPointA(s);
    } else if vk == VkInsert {
      StoreCurrentKeepsInv(s);
    } else if vk == VkDelete {
      ClearStoredKeepsInv(s, cursor);
    } else if vk == VkHome {
      RestoreStoredKeepsInv(s);
    } else if vk == VkF1 {
      RunCommandKeepsInv(s, ToggleDisplayInformation);
    } else {
      assert s' == SwapPoints(s) || s' == s;
    }
  }

  lemma KeyDownKeepsInv(s: Session, vk: int, shift: bool, cursor: (int, int))
    requires Inv(s)
    ensures Inv(OnKeyDown(s, vk, shift, cursor))
  {
    CursorKeysKeepInv(s, vk, 1, shift);
    KeyCommandKeepsInv(s.(sel := CheckCursorButtons(s.state, s.sel, vk, 1, shift, s.shot)), vk, cursor);
  }

  lemma CharKeepsInv(s: Session, ch: int)
    requires Inv(s)
    ensures Inv(OnChar(s, ch).session)
  {
    if ch == ChReturn {
      ConfirmKeepsInv(s, None);
    }
  }

  /** Every message keeps the invariant. */
  lemma StepKeepsInv(s: Session, e: Event)
    requires Inv(s)
    ensures Inv(Step(s, e).session)
  {
    var s' := Step(s, e).session;
    match e
    case PrintScreen(gateFree, c) =>
      StartKeepsInv(s, gateFree, c);
      assert s' == OnPrintScreen(s, gateFree, c);
    case Started(gateFree, c) =>
      StartKeepsInv(s, gateFree, c);
      assert s' == StartCapture(s, gateFree, c);
    case GoToTray =>
      assert s' == ToTray(s);
    case NextState(click) =>
      ConfirmKeepsInv(s, click);
      assert s' == Confirm(s, click).session;
    case KeyDown(vk, shift, cursor) =>
      KeyDownKeepsInv(s, vk, shift, cursor);
      assert s' == OnKeyDown(s, vk, shift, cursor);
    case SysKeyDown(vk, alt, shift) =>
      CursorKeysKeepInv(s, vk, 10, shift);
      assert s' == OnSysKeyDown(s, vk, alt, shift);
    case Char(ch) =>
      CharKeepsInv(s, ch);
      assert s' == OnChar(s, ch).session;
    case MouseMove(x, y) =>
      assert s' == OnCursor(s, x, y);
    case MouseWheel(delta) =>
      assert s' == OnWheel(s, delta);
    case MenuCommand(cmd) =>
      RunCommandKeepsInv(s, cmd);
      assert s' == RunCommand(s, cmd);
    case TrayMenu(gateFree) =>
      assert s' == OpenTrayMenu(s, gateFree);
    case DisplayChange =>
      assert s' == s || s' == ToTray(s);
  }

  lemma InitialSynced(reg: Registry)
    ensures Synced(Initial(reg))
  {
  }

  /** Only Synced's four fields and the registry matter to it. */
  lemma SyncedFrame(s: Session, s': Session)
    requires Synced(s)
    requires s'.config.saveToClipboard == s.config.saveToClipboard && s'.config.clipboardGpo == s.config.clipboardGpo
    requires s'.config.saveToFile == s.config.saveToFile && s'.config.fileGpo == s.config.fileGpo
    requires LayersOf(s'.reg, SaveToClipboard) == LayersOf(s.reg, SaveToClipboard)
    requires LayersOf(s'.reg, SaveToFile) == LayersOf(s.reg, SaveToFile)
    ensures Synced(s')
  {
  }

  /** A toggle writes the negated value to the user's key; with no policy
      value in place that is what the cascade yields next, and a toggle
      under policy does nothing. */
  lemma {:induction false} RunCommandKeepsSynced(s: Session, cmd: Command)
    requires Synced(s)
    ensures Synced(RunCommand(s, cmd))
  {
    var s' := RunCommand(s, cmd);
    match cmd
    case ToggleClipboard =>
      if !s.config.clipboardGpo {
        var v := CNot(s.config.saveToClipboard);
        var l := LayersOf(s'.reg, SaveToClipboard);
        assert l.hkcuUser == Some(v) && l.hkcuPolicy.None? && l.hklmPolicy.None?;
        assert LayersOf(s'.reg, SaveToFile) == LayersOf(s.reg, SaveToFile);
      }
    case ToggleFile =>
      if !s.config.fileGpo {
        var v := CNot(s.config.saveToFile);
        var l := LayersOf(s'.reg, SaveToFile);
        assert l.hkcuUser == Some(v) && l.hkcuPolicy.None? && l.hklmPolicy.None?;
        assert LayersOf(s'.reg, SaveToClipboard) == LayersOf(s.reg, SaveToClipboard);
      }
    case ToggleAlternativeColors =>
      SyncedFrame(s, s');
    case ToggleDisplayInformation =>
      SyncedFrame(s, s');
    case CancelCapture =>
      SyncedFrame(s, s');
  }

  lemma KeyCommandKeepsSynced(s: Session, vk: int, cursor: (int, int))
    requires Synced(s)
    ensures Synced(KeyCommand(s, vk, cursor))
  {
    var s' := KeyCommand(s, vk, cursor);
    if vk == KeyC {
      RunCommandKeepsSynced(s, ToggleClipboard);
    } else if vk == KeyF {
      RunCommandKeepsSynced(s, ToggleFile);
    } else if vk == KeyS {
      RunCommandKeepsSynced(s, ToggleAlternativeColors);
    } else if vk == VkF1 {
      RunCommandKeepsSynced(s, ToggleDisplayInformation);
    } else {
      SyncedFrame(s, s');
    }
  }

  /** Every message keeps the session's clipboard and file settings equal
      to what the registry yields, so a toggle always negates the value the
      program would read back. */
  lemma StepKeepsSynced(s: Session, e: Event)
    requires Synced(s)
    ensures Synced(Step(s, e).session)
  {
    var s' := Step(s, e).session;
    match e
    case PrintScreen(gateFree, c) =>
      assert s' == OnPrintScreen(s, gateFree, c);
    case Started(gateFree, c) =>
      assert s' == StartCapture(s, gateFree, c);
    case KeyDown(vk, shift, cursor) =>
      var moved := s.(sel := CheckCursorButtons(s.state, s.sel, vk, 1, shift, s.shot));
      KeyCommandKeepsSynced(moved, vk, cursor);
      assert s' == OnKeyDown(s, vk, shift, cursor);
    case MenuCommand(cmd) =>
      RunCommandKeepsSynced(s, cmd);
      assert s' == RunCommand(s, cmd);
    case TrayMenu(gateFree) =>
      assert s' == OpenTrayMenu(s, gateFree);
    case _ =>
      SyncedFrame(s, s');
  }

  /** From the program's start, a clipboard toggle from the tray negates the
      value the registry holds and writes it back, and does nothing while a
      policy sets the value. */
  lemma FirstTrayToggle(reg: Registry)
    ensures var s' := Step(Initial(reg), MenuCommand(ToggleClipboard)).session;
      && (Resolve(reg, SaveToClipboard).gpo ==> s' == Initial(reg))
      && (!Resolve(reg, SaveToClipboard).gpo ==>
            s'.reg == StoreDword(reg, SaveToClipboard, CNot(Resolve(reg, SaveToClipboard).value)))
      && Synced(s')
  {
    InitialSynced(reg);
    StepKeepsSynced(Initial(reg), MenuCommand(ToggleClipboard));
  }

  /** Messages that reach the window while it is hidden in the tray: the
      PrintScreen hook, the delayed-capture start, the tray icon's menu and
      its commands, and display changes. Keyboard and mouse input goes to
      other windows. */
  predicate ReachesHiddenWindow(e: Event) {
    e.PrintScreen? || e.Started? || e.MenuCommand? || e.TrayMenu? || e.DisplayChange?
  }

  /** In the tray, a message that reaches the hidden window leaves the tray
      exactly when it starts a capture with the modal-dialog gate free, and
      nothing is ever saved from the tray. */
  lemma TrayWaitsForCapture(s: Session, e: Event)
    requires s.state == TrayIcon && ReachesHiddenWindow(e)
    ensures Step(s, e).saved.None?
    ensures Step(s, e).session.state != TrayIcon <==> (e.PrintScreen? || e.Started?) && e.gateFree
  {
  }

  /** Insert followed, at any later point of the same capture, by Home
      gives back the stored selection for editing point B. */
  lemma StoreThenRestore(s: Session, later: Session)
    requires Inv(s) && HasPixels(s) && Editing(s.state)
    requires later.stored == StoreCurrent(s).stored && later.shot == s.shot
    ensures RestoreStored(later).state == PointB && RestoreStored(later).sel == s.sel
  {
    ClampedRectIsValid(s.sel, ExtentOf(s.shot.value));
  }

  /** A selection stored with Insert reopens at the next capture of a
      screen of the same size, ready for editing point B. */
  lemma StoredSelectionReopens(s: Session, c: Capture)
    requires Inv(s) && HasPixels(s) && Editing(s.state)
    requires IsLong(s.sel.left) && IsLong(s.sel.top) && IsLong(s.sel.right) && IsLong(s.sel.bottom)
    requires c.shot.Some? && ExtentOf(c.shot.value) == ExtentOf(s.shot.value)
    ensures var s' := StartCapture(ToTray(StoreCurrent(s)), true, c);
      s'.state == PointB && s'.sel == s.sel
  {
    ClampedRectIsValid(s.sel, ExtentOf(s.shot.value));
    var t := ToTray(StoreCurrent(s));
    assert ReadStoredSelection(t.reg) == s.sel;
  }

  /** A whole snip: PrintScreen with nothing stored, a click at (100, 100),
      a cursor move to (300, 250) and a click there save exactly the
      201 x 151 pixel area between the two points, once, and end in the tray. */
  lemma SnipOneArea(reg: Registry, img: Image, cursor: (int, int))
    requires Width(img) > 300 && Height(img) > 250
    requires !IsSelectionValid(ReadStoredSelection(reg))
    ensures var c := Capture(Some(img), [], (0, 0), cursor);
      var s1 := Step(Initial(reg), PrintScreen(true, c)).session;
      var s2 := Step(s1, NextState(Some((100, 100)))).session;
      var s3 := Step(s2, MouseMove(300, 250)).session;
      var o := Step(s3, NextState(Some((300, 250))));
      && s1.state == FirstPoint && s2.state == PointB && s3.state == PointB
      && o.session.state == TrayIcon
      && o.saved == Some(Crop(Rect(100, 100, 300, 250), 201, 151))
      && Step(o.session, NextState(Some((300, 250)))).saved.None?
  {
    var c := Capture(Some(img), [], (0, 0), cursor);
    var s1 := Step(Initial(reg), PrintScreen(true, c)).session;
    assert s1.state == FirstPoint && s1.shot == Some(img);
    var s2 := Step(s1, NextState(Some((100, 100)))).session;
    assert s2.sel == Rect(100, 100, 100, 100);
    var s3 := Step(s2, MouseMove(300, 250)).session;
    assert s3.sel == Rect(100, 100, 300, 250);
    var o := Step(s3, NextState(Some((300, 250))));
    ConfirmedCropIsWholeSelection(s3.sel, ExtentOf(img));
    assert o.saved == Some(CropToBitmap(s3.sel, ExtentOf(img)));
  }
}
