/** The icon and animation demo (test_image_display.py): loading numbered
    animation frames and keeping those that loaded, the pottery ping-pong
    play list, horizontal centring, the time-boxed animation loop and the
    static icon screens. Icon files are given as a map from icon name to
    file text; a name without an entry is a missing file. Wall-clock time is
    the sequence of readings `time.time()` returns, in call order. */
module ImageDemo {
  import opened Wrappers
  import opened Text
  import opened HexIcon
  import opened Surface

  /** The `.hex` files of the icon directory, by icon name. */
  type IconFiles = map<string, string>

  /** The animations run while fewer than this many seconds have passed. */
  const AnimationSeconds: real := 10.0

  /** `load_icon_from_hex(name)`: `None` when there is no such file. */
  function LoadIcon(files: IconFiles, name: string): (icon: Option<Bitmap>)
    ensures icon.Some? <==> name in files
    ensures icon.Some? ==> icon.value.Valid()
  {
    Decode(if name in files then Some(files[name]) else None)
  }

  /** `load_icon_from_hex` of each name, in order. */
  function Loads(files: IconFiles, names: seq<string>): seq<Option<Bitmap>> {
    seq(|names|, i requires 0 <= i < |names| => LoadIcon(files, names[i]))
  }

  // ---------------------------------------------------------------------------
  // Frame lists

  /** `[f'{prefix}{i}' for i in range(from, to)]`. */
  function Numbered(prefix: string, from: nat, to: nat): seq<string>
    requires from <= to
  {
    seq(to - from, j requires 0 <= j < to - from => prefix + Render(from + j, 10))
  }

  /** `kiln_god_0` ... `kiln_god_5` (test_image_display.py:65-66). */
  function LogoFrameNames(): seq<string> { Numbered("kiln_god_", 0, 6) }

  /** `pottery_flame_1` ... `pottery_flame_5` (test_image_display.py:106-107). */
  function FlameFrameNames(): seq<string> { Numbered("pottery_flame_", 1, 6) }

  /** The frames that loaded, in load order. */
  function Loaded(icons: seq<Option<Bitmap>>): seq<Bitmap>
    decreases |icons|
  {
    if icons == [] then []
    else
      var rest := Loaded(icons[..|icons| - 1]);
      if icons[|icons| - 1].Some? then rest + [icons[|icons| - 1].value] else rest
  }

  /** How many of the loads succeeded. */
  function CountLoaded(icons: seq<Option<Bitmap>>): nat
    decreases |icons|
  {
    if icons == [] then 0
    else CountLoaded(icons[..|icons| - 1]) + (if icons[|icons| - 1].Some? then 1 else 0)
  }

  /** One frame per successful load and none for a failed one, in load
      order: the `k`-th load, when it succeeded, is the frame that comes
      after the frames of the successful loads before it. */
  lemma {:induction false} LoadedKeepsOrder(icons: seq<Option<Bitmap>>)
    ensures |Loaded(icons)| == CountLoaded(icons)
    ensures forall k :: 0 <= k < |icons| && icons[k].Some? ==>
              CountLoaded(icons[..k]) < |Loaded(icons)| && Loaded(icons)[CountLoaded(icons[..k])] == icons[k].value
    decreases |icons|
  {
    if icons != [] {
      var init := icons[..|icons| - 1];
      LoadedKeepsOrder(init);
      forall k | 0 <= k < |icons| && icons[k].Some?
        ensures CountLoaded(icons[..k]) < |Loaded(icons)| && Loaded(icons)[CountLoaded(icons[..k])] == icons[k].value
      {
        if k < |icons| - 1 {
          assert init[..k] == icons[..k];
        } else {
          assert icons[..k] == init;
        }
      }
    }
  }

  /** Every frame kept is the result of one of the loads. */
  lemma {:induction false} LoadedFromLoads(icons: seq<Option<Bitmap>>)
    ensures forall f :: f in Loaded(icons) ==> Some(f) in icons
    decreases |icons|
  {
    if icons != [] {
      var init := icons[..|icons| - 1];
      LoadedFromLoads(init);
      forall f | f in Loaded(icons) ensures Some(f) in icons {
        if f in Loaded(init) {
          var k :| 0 <= k < |init| && init[k] == Some(f);
          assert icons[k] == Some(f);
        } else {
          assert icons[|icons| - 1] == Some(f);
        }
      }
    }
  }

  /** No frame is kept exactly when no load succeeded. */
  lemma {:induction false} NothingLoaded(icons: seq<Option<Bitmap>>)
    ensures Loaded(icons) == [] <==> forall k :: 0 <= k < |icons| ==> icons[k].None?
    decreases |icons|
  {
    if icons != [] {
      var init := icons[..|icons| - 1];
      NothingLoaded(init);
      LoadedKeepsOrder(icons);
      if Loaded(icons) == [] {
        assert icons[|icons| - 1].None?;
        assert forall k :: 0 <= k < |init| ==> icons[k] == init[k];
      }
    }
  }

  /** The frame-loading loops of test_image_display.py:64-72 and 105-113. */
  method LoadFrames(files: IconFiles, names: seq<string>) returns (frames: seq<Bitmap>)
    ensures frames == Loaded(Loads(files, names))
  {
    frames := [];
    for i := 0 to |names|
      invariant frames == Loaded(Loads(files, names[..i]))
    {
      var name := names[i];
      var icon := LoadIconFromHex(if name in files then Some(files[name]) else None);
      assert Loads(files, names[..i + 1])[..i] == Loads(files, names[..i]);
      if icon.Some? {
        frames := frames + [icon.value];
      }
    }
    assert names[..|names|] == names;
  }

  // ---------------------------------------------------------------------------
  // Ping-pong play list and centring

  /** `s[::-1]`. */
  function Reversed<T>(s: seq<T>): (r: seq<T>)
    ensures |r| == |s|
    decreases |s|
  {
    if s == [] then [] else Reversed(s[1..]) + [s[0]]
  }

  lemma {:induction false} ReversedAt<T>(s: seq<T>)
    ensures forall j :: 0 <= j < |s| ==> Reversed(s)[j] == s[|s| - 1 - j]
    decreases |s|
  {
    if s != [] {
      ReversedAt(s[1..]);
    }
  }

  /** `[pottery] + flame_frames + flame_frames[::-1]` (test_image_display.py:125). */
  function PingPong<T>(base: T, flames: seq<T>): (r: seq<T>)
    ensures |r| == 1 + 2 * |flames| && r[0] == base
  {
    [base] + flames + Reversed(flames)
  }

  /** The play list has `1 + 2k` frames for `k` flames: the base, the flames
      forwards, then the flames backwards. The turning point is not merged:
      the last flame is played twice in a row, and the pass ends on the first
      flame. */
  lemma PingPongShape<T>(base: T, flames: seq<T>)
    ensures var r := PingPong(base, flames);
      |r| == 1 + 2 * |flames| && r[0] == base &&
      (forall j :: 0 <= j < |flames| ==> r[1 + j] == flames[j]) &&
      (forall i :: 1 + |flames| <= i < |r| ==> r[i] == flames[|r| - 1 - i]) &&
      (|flames| > 0 ==> r[|flames|] == r[|flames| + 1] && r[|r| - 1] == flames[0])
  {
    ReversedAt(flames);
  }

  /** After the base, the play list reads the same backwards. */
  lemma PingPongPalindrome<T>(base: T, flames: seq<T>)
    ensures var r := PingPong(base, flames);
      forall j :: 1 <= j < |r| ==> r[j] == r[|r| - j]
  {
    var r := PingPong(base, flames);
    var k := |flames|;
    ReversedAt(flames);
    forall j | 1 <= j < |r| ensures r[j] == r[|r| - j] {
      if j <= k {
        assert r[j] == flames[j - 1];
        assert r[|r| - j] == flames[k - 1 - (k - j)];
      } else {
        assert r[j] == flames[k - 1 - (j - 1 - k)];
        assert r[|r| - j] == flames[|r| - j - 1];
      }
    }
  }

  /** `(display.width - frame.width) // 2` (test_image_display.py:130). */
  function CentreX(displayWidth: int, frameWidth: int): (x: int)
    ensures var right := displayWidth - frameWidth - x; right == x || right == x + 1
  {
    (displayWidth - frameWidth) / 2
  }

  /** The offset is the floor of half the spare width: the margin on the
      right is the left one or one pixel more, and the offset is negative
      exactly when the frame is wider than the display. */
  lemma CentreXBounds(displayWidth: int, frameWidth: int)
    ensures var x := CentreX(displayWidth, frameWidth);
      var right := displayWidth - frameWidth - x;
      (right == x || right == x + 1) &&
      (x < 0 <==> frameWidth > displayWidth) &&
      (x == 0 <==> displayWidth - 1 <= frameWidth <= displayWidth)
  {
  }

  // ---------------------------------------------------------------------------
  // The time-boxed loop

  /** `passes` whole passes are what a loop that checks the clock before each
      pass plays: each of the first `passes` checks (readings 1 to `passes`,
      reading 0 being the start) found less than `limit` seconds gone, and
      the next check found at least that. */
  predicate TimeBoxed(clock: seq<real>, limit: real, passes: nat) {
    passes + 1 < |clock| &&
    (forall j :: 1 <= j <= passes ==> clock[j] - clock[0] < limit) &&
    clock[passes + 1] - clock[0] >= limit
  }

  /** The pass count is determined by the clock: it is the first check
      that finds the time up, less one. */
  lemma TimeBoxedUnique(clock: seq<real>, limit: real, p: nat, q: nat)
    requires TimeBoxed(clock, limit, p) && TimeBoxed(clock, limit, q)
    ensures p == q
  {
  }

  /** `n` passes of the same frames, one after the other. */
  function Repeat<T>(pass: seq<T>, n: nat): seq<T>
    decreases n
  {
    if n == 0 then [] else Repeat(pass, n - 1) + pass
  }

  /** The `j`-th block of `width` elements of `s`. */
  function Block<T>(s: seq<T>, width: nat, j: nat): seq<T>
    requires (j + 1) * width <= |s|
  {
    s[j * width..(j + 1) * width]
  }

  /** Helper for RepeatBlocks: multiplying by the pass length keeps the order
      of pass counts. */
  lemma MulMono(a: nat, b: nat, w: nat)
    requires a <= b
    ensures a * w <= b * w
  {
  }

  /** Pass `j` occupies its own block of `|pass|` frames, whole. */
  lemma {:induction false} RepeatBlocks<T>(pass: seq<T>, n: nat)
    ensures |Repeat(pass, n)| == n * |pass|
    ensures forall j :: 0 <= j < n ==>
              (j + 1) * |pass| <= |Repeat(pass, n)| && Block(Repeat(pass, n), |pass|, j) == pass
    decreases n
  {
    if n > 0 {
      var w := |pass|;
      var before := Repeat(pass, n - 1);
      var all := Repeat(pass, n);
      RepeatBlocks(pass, n - 1);
      assert all == before + pass;
      assert |all| == n * w by {
        assert (n - 1) * w + w == n * w;
      }
      forall j | 0 <= j < n
        ensures (j + 1) * w <= |all| && Block(all, w, j) == pass
      {
        MulMono(j + 1, n, w);
        if j < n - 1 {
          MulMono(j + 1, n - 1, w);
          assert all[j * w..(j + 1) * w] == before[j * w..(j + 1) * w] == Block(before, w, j);
        } else {
          assert j * w == |before|;
          assert (j + 1) * w == |all|;
          assert all[|before|..|all|] == pass;
        }
      }
    }
  }

  /** `start_time = time.time(); while time.time() - start_time < limit:`
      followed by one full pass over the frames (test_image_display.py:80-86
      and 121-132): the time is checked only between passes, so every pass
      that starts is played whole. The clock must eventually read past the
      limit, or the loop would not end. */
  method PlayTimeboxed<T>(pass: seq<T>, clock: seq<real>, limit: real) returns (shown: seq<T>, passes: nat)
    requires |clock| >= 2 && clock[|clock| - 1] - clock[0] >= limit
    ensures shown == Repeat(pass, passes)
    ensures TimeBoxed(clock, limit, passes)
  {
    var start := clock[0];
    var t := 1;
    shown, passes := [], 0;
    while clock[t] - start < limit
      invariant 1 <= t < |clock| && t == passes + 1
      invariant forall j :: 1 <= j < t ==> clock[j] - start < limit
      invariant shown == Repeat(pass, passes)
      decreases |clock| - t
    {
      for i := 0 to |pass|
        invariant shown == Repeat(pass, passes) + pass[..i]
      {
        shown := shown + [pass[i]];
        assert pass[..i + 1] == pass[..i] + [pass[i]];
      }
      assert pass[..|pass|] == pass;
      passes := passes + 1;
      t := t + 1;
    }
  }

  /** At least one pass is played when the first check finds the limit not
      yet reached. */
  lemma AtLeastOnePass(clock: seq<real>, limit: real, passes: nat)
    requires TimeBoxed(clock, limit, passes)
    ensures passes >= 1 <==> clock[1] - clock[0] < limit
  {
  }

  // ---------------------------------------------------------------------------
  // The two animations

  /** One pass of the logo animation: each frame on its own screen at the
      top-left corner (test_image_display.py:82-85). */
  function LogoPass(frames: seq<Bitmap>): seq<Screen> {
    seq(|frames|, i requires 0 <= i < |frames| => [DrawBitmap(0, 0, frames[i])])
  }

  /** `test_logo` (test_image_display.py:58-86): nothing is shown when no
      frame loaded; otherwise whole passes over the loaded frames until ten
      seconds have gone. */
  method TestLogo(files: IconFiles, clock: seq<real>) returns (screens: seq<Screen>, passes: nat)
    requires |clock| >= 2 && clock[|clock| - 1] - clock[0] >= AnimationSeconds
    ensures var frames := Loaded(Loads(files, LogoFrameNames()));
      if frames == [] then screens == [] && passes == 0
      else screens == Repeat(LogoPass(frames), passes) && TimeBoxed(clock, AnimationSeconds, passes)
  {
    var frames := LoadFrames(files, LogoFrameNames());
    if frames == [] {
      return [], 0;
    }
    screens, passes := PlayTimeboxed(LogoPass(frames), clock, AnimationSeconds);
  }

  /** One pass of the pottery animation: each frame of the play list on its
      own screen, at the top, centred horizontally (test_image_display.py:125-131). */
  function PotteryPass(displayWidth: int, base: Bitmap, flames: seq<Bitmap>): seq<Screen> {
    var sequence := PingPong(base, flames);
    seq(|sequence|, i requires 0 <= i < |sequence| =>
      [DrawBitmap(CentreX(displayWidth, sequence[i].width), 0, sequence[i])])
  }

  /** `op` draws a bitmap on the top row, centred on a display `displayWidth`
      pixels wide: the margin right of it is the one left of it, or one pixel
      more. */
  predicate Centred(displayWidth: int, op: DrawOp) {
    op.DrawBitmap? && op.y == 0 &&
    var right := displayWidth - op.icon.width - op.x;
    right == op.x || right == op.x + 1
  }

  /** One centred bitmap per screen, `1 + 2k` screens for `k` flames: first
      the base, then the flames forwards, then backwards. */
  lemma PotteryPassShape(displayWidth: int, base: Bitmap, flames: seq<Bitmap>)
    ensures var screens := PotteryPass(displayWidth, base, flames);
      var k := |flames|;
      |screens| == 1 + 2 * k &&
      (forall i :: 0 <= i < |screens| ==> |screens[i]| == 1 && Centred(displayWidth, screens[i][0])) &&
      screens[0][0].icon == base &&
      (forall j :: 0 <= j < k ==> screens[1 + j][0].icon == flames[j]) &&
      (forall i :: 1 + k <= i < |screens| ==> screens[i][0].icon == flames[2 * k - i])
  {
    var screens := PotteryPass(displayWidth, base, flames);
    var sequence := PingPong(base, flames);
    PingPongShape(base, flames);
    forall i | 0 <= i < |screens|
      ensures |screens[i]| == 1 && Centred(displayWidth, screens[i][0])
    {
      CentreXBounds(displayWidth, sequence[i].width);
    }
  }

  /** `test_pottery` (test_image_display.py:88-132): nothing is shown unless
      the base image and at least one flame frame loaded; otherwise whole
      passes over the centred ping-pong play list until ten seconds have gone. */
  method TestPottery(files: IconFiles, displayWidth: int, clock: seq<real>) returns (screens: seq<Screen>, passes: nat)
    requires |clock| >= 2 && clock[|clock| - 1] - clock[0] >= AnimationSeconds
    ensures var pottery := LoadIcon(files, "pottery");
      var flames := Loaded(Loads(files, FlameFrameNames()));
      if pottery.None? || flames == [] then screens == [] && passes == 0
      else screens == Repeat(PotteryPass(displayWidth, pottery.value, flames), passes) &&
           TimeBoxed(clock, AnimationSeconds, passes)
  {
    var pottery := LoadIconFromHex(if "pottery" in files then Some(files["pottery"]) else None);
    var flames := LoadFrames(files, FlameFrameNames());
    if pottery.None? || flames == [] {
      return [], 0;
    }
    screens, passes := PlayTimeboxed(PotteryPass(displayWidth, pottery.value, flames), clock, AnimationSeconds);
  }

  // ---------------------------------------------------------------------------
  // Static icons

  /** The names `test_icons` loads (test_image_display.py:19-24). */
  function IconNames(): seq<string> { ["flame", "snowflake", "stop_sign", "clock"] }

  /** The icon and caption shown for each scenario (test_image_display.py:34-39). */
  function Scenarios(): seq<(string, string)> {
    [("flame", "Temp: 1250°F"), ("clock", "Time: 01:30:00"), ("stop_sign", "STOPPED"), ("snowflake", "Cooling...")]
  }

  /** The grid order and the left edge of each grid cell (test_image_display.py:51-52). */
  function GridNames(): seq<string> { ["flame", "clock", "stop_sign", "snowflake"] }
  function GridX(): seq<int> { [0, 20, 40, 60] }

  /** One scenario screen: the icon at the top-left corner when it loaded,
      then the caption at (24, 2) (test_image_display.py:42-46). */
  function ScenarioScreen(icon: Option<Bitmap>, caption: string): (screen: Screen)
    ensures |screen| == (if icon.Some? then 2 else 1)
    ensures screen[|screen| - 1] == DrawText(24, 2, caption)
    ensures icon.Some? ==> screen[0] == DrawBitmap(0, 0, icon.value)
  {
    (if icon.Some? then [DrawBitmap(0, 0, icon.value)] else []) + [DrawText(24, 2, caption)]
  }

  /** The loaded icons, by name: `icons.get(name)` is `None` for a name that
      was not loaded or did not load. */
  function Lookup(icons: map<string, Option<Bitmap>>, name: string): (icon: Option<Bitmap>)
    ensures icon.Some? ==> name in icons && icons[name] == icon
  {
    if name in icons then icons[name] else None
  }

  /** The bitmaps of the grid screen, cells `0` to `n - 1`. */
  function GridCells(icons: map<string, Option<Bitmap>>, n: nat): (ops: Screen)
    requires n <= |GridNames()|
    ensures |ops| <= n
    decreases n
  {
    if n == 0 then []
    else
      var icon := Lookup(icons, GridNames()[n - 1]);
      GridCells(icons, n - 1) + (if icon.Some? then [DrawBitmap(GridX()[n - 1], 0, icon.value)] else [])
  }

  /** The grid screen: the loaded icons along the top row, then the label
      (test_image_display.py:50-55). */
  function GridScreen(icons: map<string, Option<Bitmap>>): (screen: Screen)
    ensures 1 <= |screen| <= 5 && screen[|screen| - 1] == DrawText(0, 20, "All Icons")
  {
    GridCells(icons, |GridNames()|) + [DrawText(0, 20, "All Icons")]
  }

  /** `op` draws, on the top row at the left edge of one of the first `n`
      cells (20 pixels apart), the icon of that cell, which loaded. */
  predicate InCell(icons: map<string, Option<Bitmap>>, n: nat, op: DrawOp)
    requires n <= |GridNames()|
  {
    op.DrawBitmap? && op.y == 0 && 0 <= op.x < 20 * n && op.x % 20 == 0 &&
    Lookup(icons, GridNames()[op.x / 20]) == Some(op.icon)
  }

  /** Each bitmap of the grid is the icon of a cell that loaded, drawn on
      the top row at the left edge of that cell (cells are 20 pixels apart),
      and the cells are drawn left to right. */
  lemma {:induction false} GridCellsPlaced(icons: map<string, Option<Bitmap>>, n: nat)
    requires n <= |GridNames()|
    ensures forall k :: 0 <= k < |GridCells(icons, n)| ==> InCell(icons, n, GridCells(icons, n)[k])
    ensures forall k, l :: 0 <= k < l < |GridCells(icons, n)| ==> GridCells(icons, n)[k].x < GridCells(icons, n)[l].x
    decreases n
  {
    if n > 0 {
      GridCellsPlaced(icons, n - 1);
      var before := GridCells(icons, n - 1);
      var cells := GridCells(icons, n);
      var icon := Lookup(icons, GridNames()[n - 1]);
      assert cells == before + (if icon.Some? then [DrawBitmap(GridX()[n - 1], 0, icon.value)] else []);
      assert GridX()[n - 1] == 20 * (n - 1);
      assert 20 * (n - 1) / 20 == n - 1;
      forall k | 0 <= k < |cells|
        ensures InCell(icons, n, cells[k])
      {
        if k < |before| {
          assert InCell(icons, n - 1, before[k]);
          assert cells[k] == before[k];
        } else {
          assert icon.Some? && cells[k] == DrawBitmap(20 * (n - 1), 0, icon.value);
          assert (20 * (n - 1)) % 20 == 0;
        }
      }
      forall k, l | 0 <= k < l < |cells| ensures cells[k].x < cells[l].x {
        assert cells[k] == before[k];
        if l < |before| {
          assert cells[l] == before[l];
        }
      }
    }
  }

  /** A grid cell is drawn exactly when its icon loaded. */
  lemma {:induction false} GridCellsCount(icons: map<string, Option<Bitmap>>, n: nat)
    requires n <= |GridNames()|
    ensures |GridCells(icons, n)| == CountLoaded(seq(n, c requires 0 <= c < n => Lookup(icons, GridNames()[c])))
    decreases n
  {
    if n > 0 {
      GridCellsCount(icons, n - 1);
      var all := seq(n, c requires 0 <= c < n => Lookup(icons, GridNames()[c]));
      assert all[..n - 1] == seq(n - 1, c requires 0 <= c < n - 1 => Lookup(icons, GridNames()[c]));
    }
  }

  /** The grid loop of test_image_display.py:50-55. */
  method DrawIconGrid(icons: map<string, Option<Bitmap>>) returns (screen: Screen)
    ensures screen == GridScreen(icons)
  {
    var xPositions := GridX();
    var names := GridNames();
    screen := [];
    for i := 0 to |names|
      invariant screen == GridCells(icons, i)
    {
      var icon := Lookup(icons, names[i]);
      if icon.Some? {
        screen := screen + [DrawBitmap(xPositions[i], 0, icon.value)];
      }
    }
    screen := screen + [DrawText(0, 20, "All Icons")];
  }

  /** The icon dictionary of test_image_display.py:19-24: each name mapped to
      what loading it gave. */
  method LoadIcons(files: IconFiles, names: seq<string>) returns (icons: map<string, Option<Bitmap>>)
    ensures icons == map name | name in names :: LoadIcon(files, name)
  {
    icons := map[];
    for i := 0 to |names|
      invariant icons == map name | name in names[..i] :: LoadIcon(files, name)
    {
      var icon := LoadIconFromHex(if names[i] in files then Some(files[names[i]]) else None);
      icons := icons[names[i] := icon];
      assert names[..i + 1] == names[..i] + [names[i]];
    }
    assert names[..|names|] == names;
  }

  /** `test_icons` (test_image_display.py:13-56): the four icons are loaded
      once; each scenario gets a screen, then the grid gets one. */
  method TestIcons(files: IconFiles) returns (screens: seq<Screen>)
    ensures var icons := map name | name in IconNames() :: LoadIcon(files, name);
      |screens| == |Scenarios()| + 1 &&
      (forall i :: 0 <= i < |Scenarios()| ==>
         screens[i] == ScenarioScreen(Lookup(icons, Scenarios()[i].0), Scenarios()[i].1)) &&
      screens[|Scenarios()|] == GridScreen(icons)
  {
    var icons := LoadIcons(files, IconNames());
    var scenarios := Scenarios();
    screens := [];
    for i := 0 to |scenarios|
      invariant |screens| == i
      invariant forall j :: 0 <= j < i ==> screens[j] == ScenarioScreen(Lookup(icons, scenarios[j].0), scenarios[j].1)
    {
      var (name, caption) := scenarios[i];
      screens := screens + [ScenarioScreen(Lookup(icons, name), caption)];
    }
    var grid := DrawIconGrid(icons);
    screens := screens + [grid];
  }
}
