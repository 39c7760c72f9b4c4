/** The settings cascade: getDWORDSettingFromRegistry and
    getScreenshotPathFromRegistry. A value is looked up in an ordered list of
    registry places (policy, user, policy default), the first one holding it
    wins, the built-in default is used when none does, and the result is
    clamped. A per-setting "set by policy" flag records whether a policy
    place supplied it. The registry reads themselves are not modelled: each
    place is just an optional value. */
module Settings {
  import opened Wrappers
  import opened Win32
  import opened Geometry

  datatype DwordSetting =
    | DefaultZoomScale
    | ScreenshotDelay
    | SaveToClipboard
    | SaveToFile
    | UseAlternativeColors
    | DisplayInternalInformation
    | StoredSelectionLeft
    | StoredSelectionTop
    | StoredSelectionRight
    | StoredSelectionBottom
    | DisablePrintScreenKeyForSnipping
    | Dev

  /** The registry places: the policy key under HKCU and HKLM, the program's
      own key under HKCU, and the policy "Recommended" key under HKCU and HKLM. */
  datatype Scope = HkcuPolicy | HklmPolicy | HkcuUser | HkcuPolicyDefault | HklmPolicyDefault

  /** One value name as it appears (or not) in each of the five places. */
  datatype Layers<T> = Layers(
    hkcuPolicy: Option<T>,
    hklmPolicy: Option<T>,
    hkcuUser: Option<T>,
    hkcuPolicyDefault: Option<T>,
    hklmPolicyDefault: Option<T>)

  function Lookup<T>(l: Layers<T>, sc: Scope): Option<T> {
    match sc
    case HkcuPolicy => l.hkcuPolicy
    case HklmPolicy => l.hklmPolicy
    case HkcuUser => l.hkcuUser
    case HkcuPolicyDefault => l.hkcuPolicyDefault
    case HklmPolicyDefault => l.hklmPolicyDefault
  }

  const MaxZoomScale: int := 32
  const DefaultZoomScaleValue: int := 4
  const DefaultScreenshotDelay: int := 5
  const MaxScreenshotDelay: int := 60
  /** UNINITIALIZEDLONG as the DWORD the registry holds. */
  const UninitializedDword: uint32 := 0x8000_0000

  /** Settings that a policy may force or recommend. */
  predicate PolicyAware(s: DwordSetting) {
    s in {DefaultZoomScale, ScreenshotDelay, SaveToClipboard, SaveToFile, DisplayInternalInformation, DisablePrintScreenKeyForSnipping}
  }

  /** Settings with a "set by policy" flag that greys out their toggle. */
  predicate HasGpoFlag(s: DwordSetting) {
    s in {ScreenshotDelay, SaveToClipboard, SaveToFile, DisplayInternalInformation}
  }

  predicate IsStoredSelection(s: DwordSetting) {
    s in {StoredSelectionLeft, StoredSelectionTop, StoredSelectionRight, StoredSelectionBottom}
  }

  /** Settings clamped to 0 or 1. */
  predicate IsBoolean(s: DwordSetting) {
    s in {SaveToClipboard, SaveToFile, UseAlternativeColors, DisplayInternalInformation, DisablePrintScreenKeyForSnipping}
  }

  /** The places consulted for a setting, in order: for a setting a policy
      may govern, both policy places, then the user's key, then both policy
      defaults, each once; otherwise the user's key alone. */
  function SearchOrder(s: DwordSetting): (order: seq<Scope>)
    ensures !PolicyAware(s) ==> order == [HkcuUser]
    ensures forall i, j :: 0 <= i < j < |order| ==> order[i] != order[j]
    ensures PolicyAware(s) ==> |order| == 5 && order[0] == HkcuPolicy && order[1] == HklmPolicy && order[2] == HkcuUser
  {
    if PolicyAware(s) then [HkcuPolicy, HklmPolicy, HkcuUser, HkcuPolicyDefault, HklmPolicyDefault]
    else [HkcuUser]
  }

  /** The position in `order` of the first place that holds a value. */
  function FirstHit<T>(l: Layers<T>, order: seq<Scope>): (k: Option<nat>)
    ensures k.None? ==> forall i :: 0 <= i < |order| ==> Lookup(l, order[i]).None?
    ensures k.Some? ==> k.value < |order| && Lookup(l, order[k.value]).Some?
    ensures k.Some? ==> forall j :: 0 <= j < k.value ==> Lookup(l, order[j]).None?
  {
    if |order| == 0 then None
    else if Lookup(l, order[0]).Some? then Some(0)
    else
      match FirstHit(l, order[1..])
      case None => None
      case Some(k) => Some(k + 1)
  }

  /** The compiled-in default of each setting. */
  function BuiltIn(s: DwordSetting): (v: uint32)
    ensures ClampSetting(s, v) == v
    ensures IsStoredSelection(s) ==> v == UninitializedDword
    ensures s in {SaveToClipboard, SaveToFile} <==> v == 1
  {
    match s
    case DefaultZoomScale => DefaultZoomScaleValue
    case ScreenshotDelay => DefaultScreenshotDelay
    case SaveToClipboard => 1
    case SaveToFile => 1
    case UseAlternativeColors => 0
    case DisplayInternalInformation => 0
    case StoredSelectionLeft => UninitializedDword
    case StoredSelectionTop => UninitializedDword
    case StoredSelectionRight => UninitializedDword
    case StoredSelectionBottom => UninitializedDword
    case DisablePrintScreenKeyForSnipping => 0
    case Dev => 0
  }

  /** The limits applied after resolution. */
  function ClampSetting(s: DwordSetting, v: uint32): (c: uint32)
    ensures s == DefaultZoomScale ==> 1 <= c <= MaxZoomScale
    ensures s == ScreenshotDelay ==> 1 <= c <= MaxScreenshotDelay
    ensures IsBoolean(s) ==> c <= 1 && (c == 0 <==> v == 0)
    ensures !IsBoolean(s) && s != DefaultZoomScale && s != ScreenshotDelay ==> c == v
  {
    match s
    case DefaultZoomScale => if v < 1 then 1 else if v > MaxZoomScale then MaxZoomScale else v
    case ScreenshotDelay => if v < 1 then 1 else if v > MaxScreenshotDelay then MaxScreenshotDelay else v
    case SaveToClipboard => if v > 1 then 1 else v
    case SaveToFile => if v > 1 then 1 else v
    case UseAlternativeColors => if v > 1 then 1 else v
    case DisplayInternalInformation => if v > 1 then 1 else v
    case DisablePrintScreenKeyForSnipping => if v > 1 then 1 else v
    case _ => v
  }

  /** A resolved DWORD setting and its "set by policy" flag. */
  datatype Resolved = Resolved(value: uint32, gpo: bool)

  /** getDWORDSettingFromRegistry. The value is clamped to its range, and the
      policy flag is set exactly for a flagged setting whose value came from
      a policy place. Settings that no policy governs read only the user's own
      key and otherwise fall back to the built-in default. */
  function ResolveDword(s: DwordSetting, l: Layers<uint32>): (r: Resolved)
    ensures s == DefaultZoomScale ==> 1 <= r.value <= MaxZoomScale
    ensures s == ScreenshotDelay ==> 1 <= r.value <= MaxScreenshotDelay
    ensures IsBoolean(s) ==> r.value <= 1
    ensures IsStoredSelection(s) ==> r.value == l.hkcuUser.GetOr(UninitializedDword)
    ensures r.gpo <==> HasGpoFlag(s) && (l.hkcuPolicy.Some? || l.hklmPolicy.Some?)
    ensures !PolicyAware(s) ==> r.value == ClampSetting(s, l.hkcuUser.GetOr(BuiltIn(s)))
  {
    var fromPolicy :=
      if !PolicyAware(s) then None
      else if l.hkcuPolicy.Some? then l.hkcuPolicy
      else l.hklmPolicy;
    var found :=
      if fromPolicy.Some? then fromPolicy
      else if l.hkcuUser.Some? then l.hkcuUser
      else if !PolicyAware(s) then None
      else if l.hkcuPolicyDefault.Some? then l.hkcuPolicyDefault
      else l.hklmPolicyDefault;
    Resolved(ClampSetting(s, found.GetOr(BuiltIn(s))), HasGpoFlag(s) && fromPolicy.Some?)
  }

  /** The cascade is a first-hit search over SearchOrder: the resolved value
      is the clamped value of the first place in the order that holds one,
      or the clamped built-in default when none does; the policy flag is set
      exactly when that place is one of the two policy places. */
  lemma {:induction false} ResolveFollowsSearchOrder(s: DwordSetting, l: Layers<uint32>)
    ensures var order := SearchOrder(s);
      match FirstHit(l, order)
      case None => ResolveDword(s, l).value == ClampSetting(s, BuiltIn(s)) && !ResolveDword(s, l).gpo
      case Some(k) =>
        && ResolveDword(s, l).value == ClampSetting(s, Lookup(l, order[k]).value)
        && (ResolveDword(s, l).gpo <==> HasGpoFlag(s) && order[k] in {HkcuPolicy, HklmPolicy})
  {
    var order := SearchOrder(s);
    var k := FirstHit(l, order);
    if PolicyAware(s) {
      assert order[0] == HkcuPolicy && order[1] == HklmPolicy && order[2] == HkcuUser;
      assert order[3] == HkcuPolicyDefault && order[4] == HklmPolicyDefault;
      if k.Some? {
        var i := k.value;
        if i > 0 { assert Lookup(l, order[0]).None?; }
        if i > 1 { assert Lookup(l, order[1]).None?; }
        if i > 2 { assert Lookup(l, order[2]).None?; }
        if i > 3 { assert Lookup(l, order[3]).None?; }
      } else {
        assert Lookup(l, order[0]).None? && Lookup(l, order[1]).None? && Lookup(l, order[2]).None?;
        assert Lookup(l, order[3]).None? && Lookup(l, order[4]).None?;
      }
    } else {
      assert order == [HkcuUser];
      if k.None? {
        assert Lookup(l, order[0]).None?;
      }
    }
  }

  /** A forced policy value beats the user's own value: with 7 forced by
      policy and 3 set by the user, the delay is 7 and greyed out. */
  lemma PolicyBeatsUser()
    ensures ResolveDword(ScreenshotDelay, Layers(Some(7), None, Some(3), None, None)) == Resolved(7, true)
  {
  }

  /** The zoom scale default is clamped into [1, 32]: 99 becomes 32 and 0 becomes 1. */
  lemma ZoomScaleSaturates()
    ensures ResolveDword(DefaultZoomScale, Layers(None, None, Some(99), None, None)).value == 32
    ensures ResolveDword(DefaultZoomScale, Layers(None, None, Some(0), None, None)).value == 1
  {
  }

  /** The registry as the cascade sees it: the five places for every DWORD
      value name, the five places for the screenshot path, the paths that
      name existing directories, and the directory of the executable. */
  datatype Registry = Registry(
    dwords: map<DwordSetting, Layers<uint32>>,
    paths: Layers<string>,
    directories: set<string>,
    exeDir: string)

  const NoLayers: Layers<uint32> := Layers(None, None, None, None, None)

  function LayersOf(reg: Registry, s: DwordSetting): Layers<uint32> {
    if s in reg.dwords then reg.dwords[s] else NoLayers
  }

  function Resolve(reg: Registry, s: DwordSetting): Resolved {
    ResolveDword(s, LayersOf(reg, s))
  }

  /** The settings storeDWORDSettingInRegistry has a value name for; the
      zoom scale, the delay and Dev fall to its `default:` case. */
  predicate Storable(s: DwordSetting) {
    s !in {DefaultZoomScale, ScreenshotDelay, Dev}
  }

  /** storeDWORDSettingInRegistry: the value is written to the user's own
      key; a setting without a value name is refused and nothing is written. */
  function StoreDword(reg: Registry, s: DwordSetting, v: uint32): (reg': Registry)
    ensures Storable(s) ==> Lookup(LayersOf(reg', s), HkcuUser) == Some(v)
    ensures !Storable(s) ==> reg' == reg
    ensures forall sc :: sc != HkcuUser ==> Lookup(LayersOf(reg', s), sc) == Lookup(LayersOf(reg, s), sc)
    ensures forall t :: t != s ==> LayersOf(reg', t) == LayersOf(reg, t)
    ensures reg'.paths == reg.paths && reg'.directories == reg.directories && reg'.exeDir == reg.exeDir
  {
    if !Storable(s) then reg
    else reg.(dwords := reg.dwords[s := LayersOf(reg, s).(hkcuUser := Some(v))])
  }

  /** A stored user value of a setting no policy governs is what the next
      read returns, clamped; the three settings without a value name keep
      whatever they resolved to before. */
  lemma StoreThenResolve(reg: Registry, s: DwordSetting, v: uint32)
    ensures Storable(s) && !PolicyAware(s) ==> Resolve(StoreDword(reg, s, v), s).value == ClampSetting(s, v)
    ensures !Storable(s) ==> Resolve(StoreDword(reg, s, v), s) == Resolve(reg, s)
  {
  }

  /** The stored selection as startCaptureGUI reads it: four DWORDs
      reinterpreted as LONG coordinates. */
  function ReadStoredSelection(reg: Registry): (r: Rect)
    ensures IsLong(r.left) && IsLong(r.top) && IsLong(r.right) && IsLong(r.bottom)
    ensures r.left == LongOfDword(LayersOf(reg, StoredSelectionLeft).hkcuUser.GetOr(UninitializedDword))
    ensures r.top == LongOfDword(LayersOf(reg, StoredSelectionTop).hkcuUser.GetOr(UninitializedDword))
    ensures r.right == LongOfDword(LayersOf(reg, StoredSelectionRight).hkcuUser.GetOr(UninitializedDword))
    ensures r.bottom == LongOfDword(LayersOf(reg, StoredSelectionBottom).hkcuUser.GetOr(UninitializedDword))
  {
    Rect(LongOfDword(Resolve(reg, StoredSelectionLeft).value),
         LongOfDword(Resolve(reg, StoredSelectionTop).value),
         LongOfDword(Resolve(reg, StoredSelectionRight).value),
         LongOfDword(Resolve(reg, StoredSelectionBottom).value))
  }

  /** Insert and Delete: the four coordinates written as DWORDs. */
  function StoreSelection(reg: Registry, r: Rect): (reg': Registry)
    ensures LayersOf(reg', StoredSelectionLeft).hkcuUser == Some(DwordOfLong(r.left))
    ensures LayersOf(reg', StoredSelectionTop).hkcuUser == Some(DwordOfLong(r.top))
    ensures LayersOf(reg', StoredSelectionRight).hkcuUser == Some(DwordOfLong(r.right))
    ensures LayersOf(reg', StoredSelectionBottom).hkcuUser == Some(DwordOfLong(r.bottom))
    ensures forall t :: !IsStoredSelection(t) ==> LayersOf(reg', t) == LayersOf(reg, t)
    ensures reg'.paths == reg.paths && reg'.directories == reg.directories && reg'.exeDir == reg.exeDir
  {
    var reg1 := StoreDword(reg, StoredSelectionLeft, DwordOfLong(r.left));
    var reg2 := StoreDword(reg1, StoredSelectionTop, DwordOfLong(r.top));
    var reg3 := StoreDword(reg2, StoredSelectionRight, DwordOfLong(r.right));
    StoreDword(reg3, StoredSelectionBottom, DwordOfLong(r.bottom))
  }

  /** A selection stored with Insert (or cleared with Delete) is exactly what
      the next capture reads back, whatever the policy keys say; a registry
      without any stored value reads as the unset rectangle. */
  lemma StoredSelectionRoundTrip(reg: Registry, r: Rect)
    requires IsLong(r.left) && IsLong(r.top) && IsLong(r.right) && IsLong(r.bottom)
    ensures ReadStoredSelection(StoreSelection(reg, r)) == r
    ensures ReadStoredSelection(Registry(map[], reg.paths, reg.directories, reg.exeDir)) == UnsetRect
  {
    var reg' := StoreSelection(reg, r);
    LongDwordRoundTrip(r.left);
    LongDwordRoundTrip(r.top);
    LongDwordRoundTrip(r.right);
    LongDwordRoundTrip(r.bottom);
    assert LayersOf(reg', StoredSelectionLeft).hkcuUser == Some(DwordOfLong(r.left));
    assert LayersOf(reg', StoredSelectionTop).hkcuUser == Some(DwordOfLong(r.top));
    assert LayersOf(reg', StoredSelectionRight).hkcuUser == Some(DwordOfLong(r.right));
  }

  /** The resolved screenshot folder and its "set by policy" flag. */
  datatype ResolvedPath = ResolvedPath(path: string, gpo: bool)

  /** The first of two places that holds a value. */
  function FirstOf<T>(a: Option<T>, b: Option<T>): Option<T> {
    if a.Some? then a else b
  }

  /** getScreenshotPathFromRegistry. The first of policy (HKCU, HKLM) and
      user value is taken if it names a directory; otherwise the first policy
      default (HKCU, HKLM) if it names a directory; otherwise the executable's
      folder. Only the first value found in each group is checked. The policy
      flag is set whenever a policy value exists, even one that is not a
      directory. */
  function ResolveScreenshotPath(l: Layers<string>, directories: set<string>, exeDir: string): (r: ResolvedPath)
    ensures r.gpo <==> l.hkcuPolicy.Some? || l.hklmPolicy.Some?
    ensures r.path == exeDir || r.path in directories
    ensures var first := FirstOf(FirstOf(l.hkcuPolicy, l.hklmPolicy), l.hkcuUser);
      first.Some? && first.value in directories ==> r.path == first.value
    ensures var first := FirstOf(FirstOf(l.hkcuPolicy, l.hklmPolicy), l.hkcuUser);
      var second := FirstOf(l.hkcuPolicyDefault, l.hklmPolicyDefault);
      !(first.Some? && first.value in directories) && second.Some? && second.value in directories ==> r.path == second.value
    ensures var first := FirstOf(FirstOf(l.hkcuPolicy, l.hklmPolicy), l.hkcuUser);
      var second := FirstOf(l.hkcuPolicyDefault, l.hklmPolicyDefault);
      !(first.Some? && first.value in directories) && !(second.Some? && second.value in directories) ==> r.path == exeDir
    ensures r.path != exeDir ==>
      Some(r.path) in {l.hkcuPolicy, l.hklmPolicy, l.hkcuUser, l.hkcuPolicyDefault, l.hklmPolicyDefault}
  {
    var policy := FirstOf(l.hkcuPolicy, l.hklmPolicy);
    var first := FirstOf(policy, l.hkcuUser);
    var path :=
      if first.Some? && first.value in directories then first.value
      else
        var second := FirstOf(l.hkcuPolicyDefault, l.hklmPolicyDefault);
        if second.Some? && second.value in directories then second.value
        else exeDir;
    ResolvedPath(path, policy.Some?)
  }

  /** Unlike a plain "skip what is not a directory" rule, a forced policy
      folder that does not exist hides the user's own, existing folder:
      resolution goes on to the policy defaults and then the executable's
      folder, and the folder stays greyed out as set by policy. */
  lemma MissingPolicyFolderHidesUserFolder(policyPath: string, userPath: string, directories: set<string>, exeDir: string)
    requires policyPath !in directories && userPath in directories
    ensures ResolveScreenshotPath(Layers(Some(policyPath), None, Some(userPath), None, None), directories, exeDir)
      == ResolvedPath(exeDir, true)
  {
  }
}
