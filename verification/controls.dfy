/**
 * The window's user-facing state and the keyboard (`keyPressEvent`,
 * `animWindow`).
 *
 * The camera holds the zoom `ss`, the rotations `rotX` and `rotY` and the
 * display mode `etat`; the window adds the auto-rotate flag, the refresh rate
 * in frames per second and the number `carte` of the heightmap on show.
 * Reals stand for the source's single-precision floats.
 */
module Controls {

  /** The camera fields the window uses. */
  datatype Camera = Camera(ss: real, rotX: real, rotY: real, etat: int)

  /** The state keys act on. */
  datatype Controls = Controls(camera: Camera, animate: bool, refreshRate: int, carte: int)

  /** The highest refresh rate the `P` key reaches. */
  const MaxRefreshRate := 120

  /** The lowest refresh rate the `M` key reaches. */
  const MinRefreshRate := 1

  /** The number of display modes; `W` cycles through `0 .. ModeCount - 1`. */
  const ModeCount := 6

  /** The number of heightmaps; `X` cycles `carte` through `1 .. MapCount`. */
  const MapCount := 3

  /** C's `x / 2` on an `int`: division truncating toward zero. */
  function HalfTowardZero(x: int): (r: int)
    ensures x >= 0 ==> 0 <= 2 * r <= x < 2 * r + 2
    ensures x < 0 ==> 2 * r - 2 < x <= 2 * r <= 0
  {
    if x >= 0 then x / 2 else -((-x) / 2)
  }

  /** The next display mode: one more, wrapping to 0 past 5. */
  function NextMode(etat: int): int {
    if etat + 1 > ModeCount - 1 then 0 else etat + 1
  }

  /** The next heightmap: one more, wrapping to 1 past 3. */
  function NextMap(carte: int): int {
    if carte + 1 > MapCount then 1 else carte + 1
  }

  /** `P`: double the refresh rate, at most 120. */
  function Faster(rate: int): int {
    var doubled := rate * 2;
    if doubled > MaxRefreshRate then MaxRefreshRate else doubled
  }

  /** `M`: halve the refresh rate, at least 1. */
  function Slower(rate: int): int {
    var halved := HalfTowardZero(rate);
    if halved < MinRefreshRate then MinRefreshRate else halved
  }

  /** `keyPressEvent` on the controls; `X` also reloads a heightmap, which the window does. */
  function KeyPress(key: char, s: Controls): (r: Controls)
    ensures !IsBound(key) ==> r == s
    ensures InRange(s) ==> InRange(r)
  {
    var cam := s.camera;
    match key
    case 'Z' => s.(camera := cam.(ss := cam.ss + 0.1))
    case 'S' => s.(camera := cam.(ss := cam.ss - 0.1))
    case 'A' => s.(camera := cam.(rotX := cam.rotX + 1.0))
    case 'E' => s.(camera := cam.(rotX := cam.rotX - 1.0))
    case 'Q' => s.(camera := cam.(rotY := cam.rotY + 1.0))
    case 'D' => s.(camera := cam.(rotY := cam.rotY - 1.0))
    case 'W' => s.(camera := cam.(etat := NextMode(cam.etat)))
    case 'C' => s.(animate := !s.animate)
    case 'P' => s.(refreshRate := Faster(s.refreshRate))
    case 'M' => s.(refreshRate := Slower(s.refreshRate))
    case 'X' => s.(carte := NextMap(s.carte))
    case _ => s
  }

  /** `animWindow`: turn the terrain by `speed` about its vertical axis. */
  function AnimStep(cam: Camera, speed: real): (r: Camera)
    ensures r.rotY - cam.rotY == speed
    ensures r.(rotY := cam.rotY) == cam
  {
    cam.(rotY := cam.rotY + speed)
  }

  // ---------------------------------------------------------------------------
  // Properties of the keys

  /** The keys the window reacts to. */
  predicate IsBound(key: char) {
    key in {'Z', 'S', 'A', 'E', 'Q', 'D', 'W', 'C', 'P', 'M', 'X'}
  }

  /** The ranges the controls stay in: a display mode, a heightmap number, a refresh rate within the clamps. */
  predicate InRange(s: Controls) {
    0 <= s.camera.etat < ModeCount && 1 <= s.carte <= MapCount && MinRefreshRate <= s.refreshRate <= MaxRefreshRate
  }

  /** Every key keeps the controls in range. */
  lemma KeyPressKeepsRange(key: char, s: Controls)
    requires InRange(s)
    ensures InRange(KeyPress(key, s))
  {
  }

  /** Any key press leaves the refresh rate within [1, 120] once it is there, and puts it there after `P` or `M`. */
  lemma RefreshClamps(rate: int)
    ensures Faster(rate) <= 120 && 1 <= Slower(rate)
    ensures 1 <= rate ==> 1 <= Faster(rate)
    ensures rate <= 120 ==> Slower(rate) <= 120
  {
  }

  /** `M` undoes `P` below the clamp, and `P` undoes `M` on even rates above 1. */
  lemma FasterSlowerInverse(rate: int)
    ensures 1 <= rate <= 60 ==> Slower(Faster(rate)) == rate
    ensures 2 <= rate && rate % 2 == 0 && rate <= 120 ==> Faster(Slower(rate)) == rate
    ensures rate > 60 ==> Faster(rate) == 120
  {
  }

  /** Halving truncates toward zero, as C's integer division does, unlike Euclidean division on negatives. */
  lemma HalfTruncates()
    ensures HalfTowardZero(-3) == -1 && HalfTowardZero(3) == 1 && (-3) / 2 == -2
    ensures Slower(-3) == 1 && Slower(1) == 1 && Slower(3) == 1 && Slower(120) == 60
  {
  }

  /** Six presses of `W` bring any display mode in range back to itself, passing every mode once. */
  lemma ModeCycle(e: int)
    requires 0 <= e < ModeCount
    ensures NextMode(NextMode(NextMode(NextMode(NextMode(NextMode(e)))))) == e
    ensures forall e' :: 0 <= e' < ModeCount ==> NextMode(e') == (e' + 1) % ModeCount
  {
  }

  /** A mode past 5 returns to 0 on the next `W`; a negative mode counts up by one. */
  lemma ModeOutOfRange(e: int)
    ensures e >= 5 ==> NextMode(e) == 0
    ensures e < 5 ==> NextMode(e) == e + 1
  {
  }

  /** `X` cycles the heightmap number 1, 2, 3, 1. */
  lemma MapCycle(c: int)
    requires 1 <= c <= MapCount
    ensures NextMap(c) == c % MapCount + 1
    ensures NextMap(NextMap(NextMap(c))) == c
  {
  }

  /**
   * Each key changes only its own field: the zoom for `Z`/`S`, `rotX` for
   * `A`/`E`, `rotY` for `Q`/`D`, the mode for `W`, the flag for `C`, the rate
   * for `P`/`M`, the map for `X`; other keys change nothing.
   */
  lemma KeyPressFrame(key: char, s: Controls)
    ensures var r := KeyPress(key, s);
      (r.camera.ss != s.camera.ss ==> key in {'Z', 'S'}) &&
      (r.camera.rotX != s.camera.rotX ==> key in {'A', 'E'}) &&
      (r.camera.rotY != s.camera.rotY ==> key in {'Q', 'D'}) &&
      (r.camera.etat != s.camera.etat ==> key == 'W') &&
      (r.animate != s.animate ==> key == 'C') &&
      (r.refreshRate != s.refreshRate ==> key in {'P', 'M'}) &&
      (r.carte != s.carte ==> key == 'X')
    ensures !IsBound(key) ==> KeyPress(key, s) == s
  {
  }

  /** Opposite keys cancel: zoom in and out, tilt up and down, turn left and right; `C` twice restores the flag. */
  lemma OppositeKeysCancel(s: Controls)
    ensures KeyPress('S', KeyPress('Z', s)) == s
    ensures KeyPress('E', KeyPress('A', s)) == s
    ensures KeyPress('D', KeyPress('Q', s)) == s
    ensures KeyPress('C', KeyPress('C', s)) == s
  {
  }
}
