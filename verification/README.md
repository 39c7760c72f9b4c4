# abiSnip capture-session engine in Dafny

abiSnip is a Windows tray program. Pressing PrintScreen freezes the whole
virtual screen as a bitmap. The user then picks a rectangle with mouse and
keyboard: first point A, then point B. Either point can be moved pixel by
pixel, snapped to the next colour change, grown or shrunk around its centre,
or replaced by a whole monitor or the whole screen. The rectangle can be
stored for later captures. Confirming saves the chosen area and returns the
program to the tray.

This project models the engine behind that session, all of it from
`abiSnip/abiSnip.cpp`, as pure functions over immutable records:

- `Wrappers`: an `Option` type.
- `Win32`: the value conventions the engine relies on. These are LONG and
  DWORD reinterpretation, C's truncating division, BOOL negation, and the
  virtual-key and character codes.
- `Geometry`: the selection rectangle and its unset sentinel `0x80000000`.
  It covers normalisation, validity, the clamps into the bitmap, and the crop
  arithmetic of `saveSelection`.
- `Snap`: the screenshot as rows of 24-bit colours, and `setBeforeColorChange`.
  The snap appears both as a recursive function and as the loop the C++
  code writes.
- `Selection`: the four program states and `resizeSelection`. It also holds
  the arrow keys of `checkCursorButtons`, `OnMouseMove`, select-all,
  next-monitor, and the seeding of point selection in `startCaptureGUI`.
- `Settings`: the registry cascade of `getDWORDSettingFromRegistry` and
  `getScreenshotPathFromRegistry`, with each setting's "set by policy" flag.
  It also models `storeDWORDSettingInRegistry`.
- `Magnifier`: when `zoomMousePosition` skips a box, and where it samples and
  draws.
- `Session`: the window procedure as a step function over a record of the
  program's globals. It proves an invariant preserved by every message, the
  confirm, cancel and toggle rules, and a complete snip from start to end.

Screen capture, monitor enumeration and cursor reads are not performed.
Their results are inputs of the events that need them (`Session.Capture`,
the cursor of `KeyDown`). Each registry value is an abstract
`Option<uint32>` in each of its five places: HKCU policy, HKLM policy, HKCU
user key, HKCU policy defaults, HKLM policy defaults. Whether a path names a
directory is a set of strings. The test of the modal-dialog semaphore is a
boolean input.

Where the code behaves differently from what its documentation or a reader would expect, the model follows the code:

- `getScreenshotPathFromRegistry` does not fall through within the first
  group of places. If HKCU policy holds a path that is not a directory, the
  HKLM policy value and the user value are never consulted. The search goes
  straight to the policy defaults, and the "set by policy" flag stays set
  (`Settings.MissingPolicyFolderHidesUserFolder`).
- `WM_STARTED` itself does not check the program state. It is still only
  sent from the tray: the PrintScreen hook tests the state, and the
  delayed-capture timer is set only by the tray menu and is killed whenever a
  capture starts or ends. None of the keyboard handlers checks the state either. A key such as 'A'
  or 'M' would switch a tray-state session to editing point B. This cannot
  happen only because the hidden window receives no keys
  (`Session.TrayWaitsForCapture` states which messages reach it).
- When the selection's height is shrunk past zero, `resizeSelection`
  computes the midpoint as `(top + top) / 2`. The height therefore collapses
  onto `top` rather than onto the middle, unlike the width. The model keeps
  this (`Selection.ResizeHeightCollapsesOntoTop`).
- A final-point magnifier box samples the 32 pixels on the selection side of
  its corner, not those outside it. The model keeps this
  (`Magnifier.FinalBoxSamplesInsideSelection`).

## Model

| member | source | states |
|---|---|---|
| Win32.LongOfDword | abiSnip/abiSnip.cpp:891-894 | a DWORD read back from the registry becomes the LONG with the same 32-bit pattern |
| Win32.DwordOfLong | abiSnip/abiSnip.cpp:3858-3861 | a LONG coordinate passed as a DWORD keeps its bit pattern modulo 2^32 |
| Win32.LongDwordRoundTrip | abiSnip/abiSnip.cpp:3858-3861 | any LONG written as a DWORD and read back as a LONG is unchanged |
| Geometry.Normalize | abiSnip/abiSnip.cpp:372-397 | the result has left <= right and top <= bottom, and each axis keeps its two input values, possibly swapped |
| Geometry.NormalizeUnique | abiSnip/abiSnip.cpp:372-397 | normalisation is the only ordered rectangle that keeps each axis's values |
| Geometry.NormalizeIdempotent | abiSnip/abiSnip.cpp:372-397 | normalising twice is normalising once, and an ordered rectangle is left alone |
| Geometry.NormalizeIsMinMax | abiSnip/abiSnip.cpp:372-397 | the normalised rectangle is the per-axis minimum and maximum |
| Geometry.IsSelectionValid | abiSnip/abiSnip.cpp:577-581 | a rectangle is valid exactly when none of its four coordinates is the sentinel 0x80000000 |
| Geometry.NormalizeKeepsValidity | abiSnip/abiSnip.cpp:372-397 | normalising does not change validity |
| Geometry.LimitX | abiSnip/abiSnip.cpp:1386-1396 | without a bitmap the column is unchanged; with one, a column left of it becomes 0, one right of it the last column, and one inside is kept |
| Geometry.LimitY | abiSnip/abiSnip.cpp:1403-1419 | the same for rows |
| Geometry.Limit | abiSnip/abiSnip.cpp:1386-1419 | for a bitmap of at least one pixel the result lies in [0, size-1] and is the index nearest the input; inputs already inside are unchanged |
| Geometry.LimitMonotone | abiSnip/abiSnip.cpp:1386-1419 | clamping keeps the order of two coordinates |
| Geometry.ClampedRectIsValid | abiSnip/abiSnip.cpp:1386-1419 | a rectangle whose four coordinates went through the clamps of a non-empty bitmap is valid |
| Geometry.CropToBitmap | abiSnip/abiSnip.cpp:1537-1545 | a column or row is in the crop exactly when it is in the selection and in the bitmap; width and height count the crop's pixels inclusively |
| Geometry.ConfirmedCropIsWholeSelection | abiSnip/abiSnip.cpp:1537-1545 | a selection inside the bitmap is cropped to its normalisation, at least 2 x 2 pixels |
| Snap.GetPixel | abiSnip/abiSnip.cpp:3004 | inside the bitmap the pixel's colour, outside it CLR_INVALID |
| Snap.GetPixelValidOnlyInside | abiSnip/abiSnip.cpp:3004 | GetPixel returns CLR_INVALID exactly outside the bitmap |
| Snap.DirectionOf | abiSnip/abiSnip.cpp:2984-3001 | exactly the four arrow keys have a direction; it is a unit step whose sign matches the key |
| Snap.Steps | abiSnip/abiSnip.cpp:3003-3013 | every pixel passed has the reference colour and lies in the bitmap, and from the stopping point no further step is possible |
| Snap.SnapToColorChange | abiSnip/abiSnip.cpp:2964-3027 | it fails, leaving the point unchanged, exactly when there is no bitmap or the key is not an arrow; from a start inside, the result stays inside with the start's colour; from a start outside, it does not move |
| Snap.SetBeforeColorChange | abiSnip/abiSnip.cpp:2983-3013 | the loop as written reaches the same point as the recursive walk; the end pixel has the start colour, and no further step is possible from it |
| Selection.ResizeSelection | abiSnip/abiSnip.cpp:2895-2944 | no change outside A/B; a width shrunk past zero collapses onto the clamped midpoint; a height shrunk past zero collapses onto the clamped top; otherwise on each axis both edges move outward by the step (inward for a negative step), following the drag direction, each then clamped into the bitmap; neither axis flips orientation; the result lies in the bitmap |
| Selection.ResizeWidthAroundCentre | abiSnip/abiSnip.cpp:2903-2919 | when no clamp bites, resizing keeps the horizontal centre and changes the width by twice the step |
| Selection.ResizeHeightAroundCentre | abiSnip/abiSnip.cpp:2920-2937 | when no clamp bites, resizing keeps the vertical centre and changes the height by twice the step |
| Selection.GrowThenShrink | abiSnip/abiSnip.cpp:2895-2944 | '+' followed by '-' gives back a selection that is at least one pixel inside the bitmap's border |
| Selection.ResizeHeightCollapsesOntoTop | abiSnip/abiSnip.cpp:2920-2926 | a concrete shrink where the height collapses onto top rather than the midpoint, while the width collapses onto its midpoint |
| Selection.CheckCursorButtons | abiSnip/abiSnip.cpp:3043-3172 | an arrow key moves only the active point, by the step along the key's axis with that coordinate clamped; with Shift it moves to the snap target; other keys and the tray state change nothing |
| Selection.CursorKeysStayInBitmap | abiSnip/abiSnip.cpp:3043-3172 | an arrow key never moves an active point inside the bitmap out of it |
| Selection.OnMouseMove | abiSnip/abiSnip.cpp:2138-2163 | a repeated position is ignored; otherwise the active point becomes the clamped cursor position and the other point stays |
| Selection.SelectAll | abiSnip/abiSnip.cpp:3668-3683 | without a bitmap nothing is selected; with one the selection is (0, 0) to (width-1, height-1) |
| Selection.NextIndex | abiSnip/abiSnip.cpp:3809-3811 | the next monitor index is always in range and is the successor modulo the monitor count |
| Selection.NextIndexNCountsUp | abiSnip/abiSnip.cpp:3809-3811 | presses that do not pass the last monitor just count up |
| Selection.NextIndexNAdd | abiSnip/abiSnip.cpp:3809-3811 | a + b presses equal a presses followed by b presses |
| Selection.NextMonitorCycles | abiSnip/abiSnip.cpp:3807-3821 | as many presses of 'M' as there are monitors return to the same monitor |
| Selection.NextMonitor | abiSnip/abiSnip.cpp:3807-3821 | with monitors present, the next monitor's half-open rectangle, shifted to window coordinates, becomes an inclusive selection; it is exact when it fits the bitmap |
| Selection.ClampRect | abiSnip/abiSnip.cpp:3340-3347 | without a bitmap, or for a rectangle already inside it, the rectangle is unchanged; with a non-empty bitmap the result lies inside it and is a valid selection |
| Selection.Seed | abiSnip/abiSnip.cpp:3340-3357 | a valid stored selection reopens, clamped, for editing B; otherwise point selection starts at the clamped cursor with B unset, so the selection is not yet valid |
| Settings.SearchOrder | abiSnip/abiSnip.cpp:789-858 | a setting no policy governs is read from the user key only; otherwise all five places are consulted once each, both policy places first and then the user key |
| Settings.BuiltIn | abiSnip/abiSnip.cpp:842-858 | every built-in default is already inside its setting's range; a stored coordinate defaults to the unset sentinel; exactly the clipboard and file settings default to 1 |
| Settings.FirstHit | abiSnip/abiSnip.cpp:789-858 | the position of the first place in a search order that holds a value, or none |
| Settings.ClampSetting | abiSnip/abiSnip.cpp:861-880 | zoom lands in [1, 32] and delay in [1, 60]; boolean settings land in {0, 1} and are zero only when the input is; other values pass unchanged |
| Settings.ResolveDword | abiSnip/abiSnip.cpp:762-901 | the ranges after clamping hold; a stored coordinate is the user value or the sentinel; the policy flag is set exactly for a flagged setting that a policy place supplies; user-only settings read only the user key |
| Settings.ResolveFollowsSearchOrder | abiSnip/abiSnip.cpp:789-858 | the resolved value is the clamped value of the first place in the setting's search order that holds one, or the clamped built-in default |
| Settings.PolicyBeatsUser | abiSnip/abiSnip.cpp:798-822 | a concrete registry where a forced delay of 7 beats the user's 3 and sets the policy flag |
| Settings.ZoomScaleSaturates | abiSnip/abiSnip.cpp:863-866 | a concrete registry where a stored zoom of 99 reads back as 32 and 0 reads back as 1 |
| Settings.StoreDword | abiSnip/abiSnip.cpp:917-961 | storing writes only the user key of that one setting; the zoom scale, the delay and Dev have no value name and are not written at all; every other place and setting is unchanged |
| Settings.StoreThenResolve | abiSnip/abiSnip.cpp:917-961 | a stored value of a setting no policy governs is what the next read returns, clamped; a refused setting reads as before |
| Settings.ReadStoredSelection | abiSnip/abiSnip.cpp:890-893 | each coordinate is the user key's DWORD, or the sentinel when absent, reinterpreted as a LONG |
| Settings.StoreSelection | abiSnip/abiSnip.cpp:3854-3880 | the four coordinates land in the user key as DWORDs, and no other setting or the path changes |
| Settings.StoredSelectionRoundTrip | abiSnip/abiSnip.cpp:3854-3894 | a selection stored with Insert or cleared with Delete reads back unchanged at the next capture, whatever the policy places hold |
| Settings.ResolveScreenshotPath | abiSnip/abiSnip.cpp:1073-1099 | the first of policy/user wins if it is a directory, else the first policy default if it is a directory, else (in every other case) the executable's directory; the flag is set exactly when a policy place holds a path |
| Settings.MissingPolicyFolderHidesUserFolder | abiSnip/abiSnip.cpp:1081-1099 | a policy path that is not a directory hides a valid user path; the result falls back to the executable's directory and stays policy-flagged |
| Magnifier.Suppressed | abiSnip/abiSnip.cpp:1673-1678 | the first-point box and the edited point's box are never skipped; a skip needs a selection narrower or lower than 32 times the zoom |
| Magnifier.CenteredSpan | abiSnip/abiSnip.cpp:1700-1705 | the first-point box samples and draws a window containing its point, and the point's magnified cell covers it |
| Magnifier.ForwardSpan | abiSnip/abiSnip.cpp:1707-1710 | a box facing larger coordinates starts sampling and drawing at its corner |
| Magnifier.BackwardSpan | abiSnip/abiSnip.cpp:1712-1715 | a box facing smaller coordinates ends sampling and drawing at its corner |
| Magnifier.Place | abiSnip/abiSnip.cpp:1700-1747 | for every box type both the sampled window and the drawn box contain the magnified point on both axes |
| Magnifier.FinalBoxSamplesInsideSelection | abiSnip/abiSnip.cpp:1704-1734 | once the selection is 32 pixels wide and high, a final-point box samples only pixels inside the normalised selection |
| Magnifier.DrawnInactiveBoxInsideSelection | abiSnip/abiSnip.cpp:1673-1747 | a final-point box drawn for the point not being edited lies inside the selection rectangle |
| Magnifier.SuppressionRule | abiSnip/abiSnip.cpp:1673-1678 | the inactive final box is skipped exactly when the selection is narrower or lower than 32 times the zoom |
| Session.Initial | abiSnip/abiSnip.cpp:185-202 | the program starts in the tray, with no valid selection or stored selection, zoom 4, no screenshot and the compiled-in delay, colour and information defaults; the clipboard and file settings and their policy flags are the registry's values |
| Session.InitialSynced | abiSnip/abiSnip.cpp:3578-3580 | the clipboard and file settings read before the message loop agree with the registry cascade |
| Session.OpenTrayMenu | abiSnip/abiSnip.cpp:3741-3752 | with the gate free, a right click on the tray icon re-reads the file, clipboard and delay settings and the screenshot folder, with their policy flags, and changes nothing else; with the gate busy nothing changes |
| Session.RunCommandKeepsSynced | abiSnip/abiSnip.cpp:4048-4061 | a toggle not under policy writes the negated value to the user key, which the cascade then yields; under policy nothing changes |
| Session.KeyCommandKeepsSynced | abiSnip/abiSnip.cpp:3793-3915 | no key command lets the held clipboard and file settings drift from the registry |
| Session.StepKeepsSynced | abiSnip/abiSnip.cpp:3647-4097 | every message keeps the held clipboard and file settings and their policy flags equal to the registry cascade's result |
| Session.FirstTrayToggle | abiSnip/abiSnip.cpp:4048-4054 | the first clipboard toggle after start negates the registry's value and writes it to the user key, or does nothing while a policy sets it |
| Session.InitialInv | abiSnip/abiSnip.cpp:185-202 | the starting globals satisfy the session invariant |
| Session.ZoomIn | abiSnip/abiSnip.cpp:3658-3661 | below 32 the zoom grows by one; from 32 up to 0xFFFFFFFE it becomes 32; the result never exceeds 32 (at 0xFFFFFFFF the DWORD wraps to 0) |
| Session.ZoomOut | abiSnip/abiSnip.cpp:3663-3666 | from 2 up the zoom shrinks by one; 1 stays 1; the result is never below 1 |
| Session.ZoomRoundTrip | abiSnip/abiSnip.cpp:3658-3666 | inside [1, 32] zooming in and out undo each other away from the limits and stay in range |
| Session.ZoomSaturates | abiSnip/abiSnip.cpp:3658-3666 | k steps in give min(z + k, 32) and k steps out give max(z - k, 1) |
| Session.OnWheel | abiSnip/abiSnip.cpp:3650-3657 | a forward wheel turn zooms in, any other turn zooms out, and nothing else changes |
| Session.ReadConfig | abiSnip/abiSnip.cpp:3324-3334 | every re-read setting and flag is its cascade result (delay, clipboard, file, colours, information) or the resolved screenshot folder; the values are in range, and each policy flag is set exactly when a policy place holds that value |
| Session.StartCapture | abiSnip/abiSnip.cpp:3684-3692 | a busy gate changes nothing; otherwise the session leaves the tray with the new screenshot, the stored selection, zoom and settings re-read from the registry, which stays untouched, seeded as startCaptureGUI does; the monitor index and last mouse position are kept |
| Session.OnPrintScreen | abiSnip/abiSnip.cpp:266 | PrintScreen starts a capture only from the tray |
| Session.ToTray | abiSnip/abiSnip.cpp:3693-3703 | cancelling changes only the state, to the tray |
| Session.SavedArea | abiSnip/abiSnip.cpp:1533-1545 | a crop is produced exactly when a screenshot exists |
| Session.Confirm | abiSnip/abiSnip.cpp:3704-3735 | in the first-point state, A is fixed (at the clamped click if any), B is collapsed onto it, editing moves to B and zoom is re-read; in A/B with nonzero width and height, the session goes to the tray and the crop is saved; otherwise nothing changes |
| Session.SwapPoints | abiSnip/abiSnip.cpp:3898-3914 | Tab swaps A and B and changes nothing else; other states are untouched |
| Session.SwapPointsTwice | abiSnip/abiSnip.cpp:3898-3914 | Tab twice is no change |
| Session.RestartAtPointA | abiSnip/abiSnip.cpp:3832-3853 | 'P' and 'B' in A/B restart at the first point, keeping A and unsetting B; elsewhere they do nothing |
| Session.StoreCurrent | abiSnip/abiSnip.cpp:3854-3864 | Insert stores a valid selection in the session and the registry, readable back at the next capture; an invalid one changes nothing |
| Session.ClearStored | abiSnip/abiSnip.cpp:3865-3880 | Delete unsets the stored selection in the session and the registry and restarts point selection at the clamped cursor |
| Session.RestoreStored | abiSnip/abiSnip.cpp:3881-3891 | Home reopens a valid stored selection, clamped, for editing B; otherwise nothing changes |
| Session.SelectWhole | abiSnip/abiSnip.cpp:3668-3683 | without a screenshot nothing changes; with one, the whole screenshot is selected for editing B |
| Session.SelectNextMonitor | abiSnip/abiSnip.cpp:3807-3821 | without monitors nothing changes; otherwise the next monitor index is chosen and its rectangle, in window coordinates and clamped, becomes the selection for editing B, lying in the screenshot |
| Session.RunCommand | abiSnip/abiSnip.cpp:4048-4072 | the clipboard, file and information toggles do nothing under policy and otherwise negate the flag and write it to the user key; the colour toggle always does; cancel goes to the tray |
| Session.ToggleTwice | abiSnip/abiSnip.cpp:4048-4072 | toggling any setting twice restores the settings |
| Session.ToggleIsPersisted | abiSnip/abiSnip.cpp:4048-4054 | a clipboard toggle not under policy is what the next read of the registry returns |
| Session.OnKeyDown | abiSnip/abiSnip.cpp:3791-3916 | an arrow key moves the active point by one pixel, or with Shift to the last pixel before the next colour change, and changes nothing else; every other key is dispatched to the key commands |
| Session.KeyCommand | abiSnip/abiSnip.cpp:3793-3915 | each key touches only its part of the session: page keys only the zoom; C, F, S and F1 only settings and registry; A, M, P, B, Home and Tab only state, selection and monitor index; Insert and Delete only state, selection, stored selection and the stored-selection registry values; unhandled keys nothing |
| Session.OnSysKeyDown | abiSnip/abiSnip.cpp:3781-3790 | with Alt, any key except F4 moves the active point by ten pixels; without Alt nothing changes |
| Session.OnChar | abiSnip/abiSnip.cpp:3917-3931 | Escape cancels, Return confirms, '+' and '-' resize by one pixel, and other characters change nothing |
| Session.OnCursor | abiSnip/abiSnip.cpp:3961-3962 | a cursor move changes only the selection and the last position, and puts the active point at the clamped cursor |
| Session.Step | abiSnip/abiSnip.cpp:3647-4097 | only a confirmation from A/B with nonzero width and height saves; it ends in the tray with the crop of the selection it left; a display change sends the session to the tray and changes nothing else |
| Session.CursorKeysKeepInv | abiSnip/abiSnip.cpp:3043-3172 | arrow keys keep the session invariant |
| Session.SeedInBitmap | abiSnip/abiSnip.cpp:3340-3357 | seeding on a non-empty screenshot leaves the tray, puts point A in the screenshot, and puts the whole selection in it when B is being edited |
| Session.StartKeepsInv | abiSnip/abiSnip.cpp:3684-3692 | starting a capture keeps the session invariant |
| Session.ConfirmKeepsInv | abiSnip/abiSnip.cpp:3704-3735 | confirming keeps the session invariant |
| Session.SelectWholeKeepsInv | abiSnip/abiSnip.cpp:3668-3683 | select-all keeps the session invariant |
| Session.SelectNextMonitorKeepsInv | abiSnip/abiSnip.cpp:3807-3821 | next-monitor keeps the session invariant |
| Session.RunCommandKeepsInv | abiSnip/abiSnip.cpp:4048-4076 | menu commands keep the session invariant |
| Session.StoreCurrentKeepsInv | abiSnip/abiSnip.cpp:3854-3864 | Insert keeps the session invariant |
| Session.ClearStoredKeepsInv | abiSnip/abiSnip.cpp:3865-3880 | Delete keeps the session invariant |
| Session.RestoreStoredKeepsInv | abiSnip/abiSnip.cpp:3881-3891 | Home keeps the session invariant |
| Session.KeyCommandKeepsInv | abiSnip/abiSnip.cpp:3793-3915 | every non-arrow key keeps the session invariant |
| Session.KeyDownKeepsInv | abiSnip/abiSnip.cpp:3791-3916 | WM_KEYDOWN keeps the session invariant |
| Session.CharKeepsInv | abiSnip/abiSnip.cpp:3917-3931 | WM_CHAR keeps the session invariant |
| Session.StepKeepsInv | abiSnip/abiSnip.cpp:3647-4097 | every message keeps zoom and settings in range, point A in the screenshot while choosing, and the whole selection in it while editing |
| Session.TrayWaitsForCapture | abiSnip/abiSnip.cpp:3684-3692 | in the tray, a message that reaches the hidden window (capture starts, the tray menu and its commands, display changes) leaves the tray exactly when it starts a capture with the gate free, and nothing is saved |
| Session.StoreThenRestore | abiSnip/abiSnip.cpp:3854-3891 | Insert followed later by Home gives back the same selection for editing B |
| Session.StoredSelectionReopens | abiSnip/abiSnip.cpp:3340-3347 | a selection stored with Insert reopens unchanged, for editing B, at the next capture of a same-sized screen |
| Session.SnipOneArea | abiSnip/abiSnip.cpp:3704-3735 | PrintScreen, a click at (100, 100), a move to (300, 250) and a click save exactly the 201 x 151 area between them, once, and end in the tray |

## Left out

- Screen capture, monitor enumeration and cursor reads are OS calls. Their results are event inputs.
- Registry read and write primitives, the run key and `checkPrintScreenKeyForSnipping` are OS I/O. The registry is a map to optional values, and a directory check is membership in a set.
- Drawing is pixel output with font metrics and carries no session state. This covers `OnPaint`, the magnified bitmap itself, the labels and their placement, and the info overlay with its floating-point monitor mini-map.
- The pixel effects of `pixelateScreenshotRect` and `markScreenshotRect` change only image content. Their state effect is modelled. In the program, P and B edit the screenshot bitmap itself, so a later Shift+arrow snap reads the edited pixels; the model's `shot` stays the captured image.
- PNG encoding, the clipboard and the file name are output; the model stops at the crop rectangle.
- Building and showing the tray icon menu, TaskDialogs, the folder picker and command-line parsing (one-time capture mode included) are user-interface plumbing. The settings re-read before the menu appears is modelled (`Session.OpenTrayMenu`); the run-key state it also reads is not.
- Registry changes made by other programs between messages are not modelled: the registry changes only through the program's own writes. The program's re-reads at capture start and before the tray menu are modelled.
- The keyboard hook's installation and key forwarding are OS calls. Only its tray-state test is modelled (`Session.OnPrintScreen`).
- The focus workarounds, `g_ignoreNextClick` and `MySetCursorPos` are OS-level focus and cursor warping. No state of the model depends on them.
- Timers, including the one-second window-geometry check, are window plumbing. So is its `abs(left - left)` expression.
- The missing `break` that lets `WM_TIMER` fall into `WM_COMMAND` depends on resource IDs that are not part of this model.
- Session.OnSysKeyDown: Alt+F4 destroys the window and ends the program. The model leaves the session unchanged there, because program exit is outside it.
- The modal-dialog semaphore is concurrency. The outcome of its non-blocking test is a boolean input.
