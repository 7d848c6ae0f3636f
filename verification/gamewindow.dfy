/**
 * One terrain window (`GameWindow`): start-up, key handling with map reloads,
 * the per-frame `render`, and the season updates read from the server.
 *
 * The heightmap resources `:/heightmap-1.png` to `:/heightmap-3.png` are a map
 * from the map number to the decoded image; a number missing from the map is
 * a file that does not exist, in which case the loader reuses the image it
 * already holds. Loading fails with a `LoadError` where the source has
 * undefined behaviour.
 */
module GameWindow {
  import opened Results
  import opened Grid
  import opened Heightmap
  import opened Colours
  import opened Drawing
  import opened Particles
  import opened Controls

  /** The decoded heightmap behind each map number. */
  type Resources = map<int, Image>

  /** The heightmap `initialize` loads. */
  const StartMap := 2

  /** The rotation `animWindow` adds per frame, `speed`. */
  const RotationSpeed := 0.5

  datatype Window = Window(
    controls: Controls,
    speed: real,
    season: string,     // the last payload read from the server, initially "NONE"
    image: Image,       // the image the loader last used
    mesh: Mesh,         // the samples and extents built from it
    pool: seq<Particle>,
    colour: Colour,     // the OpenGL current colour
    frame: int)

  /** What one `render` sent to OpenGL: the transform it set up and the passes in order. */
  datatype Frame = Frame(scale: real, rotX: real, rotY: real, passes: seq<Pass>)

  /** `loadMap` on a map number: the file's image if it exists, else the image already held. */
  function LoadNumbered(res: Resources, n: int, current: Image): (r: (Image, Result<Mesh, LoadError>))
    ensures n in res ==> r.0 == res[n]
    ensures n !in res ==> r.0 == current
    ensures r.1.Success? <==> SafeLayout(r.0.width, r.0.height)
    ensures r.1.Success? ==> r.1.value.width == r.0.width && r.1.value.height == r.0.height
  {
    var img := if n in res then res[n] else current;
    (img, LoadMap(img))
  }

  /**
   * The constructor and `initialize`: map number 1, season "NONE", the
   * heightmap-2 image loaded over a null image, then a full particle pool. The
   * camera, the refresh rate and the frame counter come from outside.
   */
  function Init(cam: Camera, refreshRate: int, frame: int, res: Resources, draws: seq<Draw>, cur: Colour)
    : (r: Result<Window, LoadError>)
    requires |draws| == MaxParticles
    ensures r.Success? <==> LoadMap(if StartMap in res then res[StartMap] else NullImage).Success?
    ensures r.Success? ==>
      Inv(r.value) && r.value.season == NoSeason && r.value.controls.carte == 1 &&
      r.value.controls.camera == cam && r.value.controls.refreshRate == refreshRate && r.value.controls.animate
  {
    var (img, loaded) := LoadNumbered(res, StartMap, NullImage);
    match loaded
    case Failure(e) => Failure(e)
    case Success(mesh) =>
      Success(Window(Controls(cam, true, refreshRate, 1), RotationSpeed, NoSeason, img, mesh,
                     CreateParticles(mesh, draws), cur, frame))
  }

  /** What holds of a window between events. */
  predicate Inv(w: Window) {
    w.speed == RotationSpeed &&
    1 <= w.controls.carte <= MapCount &&
    LoadMap(w.image) == Success(w.mesh) &&
    |w.pool| == MaxParticles && AllValid(w.pool)
  }

  /** `keyPressEvent`: the key's effect on the controls; `X` then loads the heightmap of the new number. */
  function HandleKey(w: Window, key: char, res: Resources): (r: Result<Window, LoadError>)
    ensures key != 'X' ==> r == Success(w.(controls := KeyPress(key, w.controls)))
  {
    var controls := KeyPress(key, w.controls);
    if key == 'X' then
      var (img, loaded) := LoadNumbered(res, controls.carte, w.image);
      match loaded
      case Failure(e) => Failure(e)
      case Success(mesh) => Success(w.(controls := controls, image := img, mesh := mesh))
    else
      Success(w.(controls := controls))
  }

  /**
   * `render`: set up the transform from the camera, draw the terrain in the
   * current mode, then the particles, then turn the terrain if animation is
   * on and count the frame. `draws[k]` feeds particle `k`'s respawn.
   */
  function Render(w: Window, draws: seq<Draw>): (r: (Window, Frame))
    requires |draws| == |w.pool|
    ensures |r.0.pool| == |w.pool| && r.0.frame == w.frame + 1
    ensures r.0.mesh == w.mesh && r.0.image == w.image && r.0.season == w.season
  {
    var cam := w.controls.camera;
    var terrain := Terrain(w.mesh, cam.etat, w.season, w.colour);
    var rain := Tick(w.mesh, w.season, w.pool, draws, terrain.colour);
    var cam' := if w.controls.animate then AnimStep(cam, w.speed) else cam;
    var w' := w.(controls := w.controls.(camera := cam'), pool := rain.pool, colour := rain.painted.colour,
                 frame := w.frame + 1);
    (w', Frame(cam.ss, cam.rotX, cam.rotY, terrain.passes + rain.painted.passes))
  }

  /** `readyRead`: the season becomes the received bytes, whatever they are. */
  function ReadyRead(w: Window, payload: string): (r: Window)
    ensures r.season == payload && r.(season := w.season) == w
  {
    w.(season := payload)
  }

  // ---------------------------------------------------------------------------
  // Properties of the window

  /** A key other than `X` cannot fail and keeps the invariant; `X` keeps it whenever the load succeeds. */
  lemma HandleKeyKeepsInv(w: Window, key: char, res: Resources)
    requires Inv(w)
    ensures HandleKey(w, key, res).Success? ==> Inv(HandleKey(w, key, res).value)
    ensures key != 'X' ==> HandleKey(w, key, res).Success?
  {
  }

  /** `X` with the next map's file missing reloads the image already held and so keeps the same mesh. */
  lemma ReloadMissingFile(w: Window, res: Resources)
    requires Inv(w) && NextMap(w.controls.carte) !in res
    ensures HandleKey(w, 'X', res) == Success(w.(controls := w.controls.(carte := NextMap(w.controls.carte))))
  {
  }

  /** `X` loads the heightmap with the next number; it fails exactly when that image has an unsafe shape. */
  lemma ReloadLoadsNext(w: Window, res: Resources)
    requires Inv(w) && NextMap(w.controls.carte) in res
    ensures var img := res[NextMap(w.controls.carte)];
      HandleKey(w, 'X', res).Success? <==> LoadMap(img).Success?
    ensures var img := res[NextMap(w.controls.carte)];
      HandleKey(w, 'X', res).Success? ==>
        HandleKey(w, 'X', res).value.image == img && HandleKey(w, 'X', res).value.pool == w.pool
  {
  }

  /**
   * A started window shows heightmap 2 while its number says 1, so the first
   * `X` loads heightmap 2 again.
   */
  lemma FirstReloadRepeatsStartMap(cam: Camera, rate: int, frame: int, res: Resources, draws: seq<Draw>, cur: Colour)
    requires |draws| == MaxParticles && StartMap in res && Init(cam, rate, frame, res, draws, cur).Success?
    ensures var w := Init(cam, rate, frame, res, draws, cur).value;
      w.controls.carte == 1 && w.image == res[2] &&
      HandleKey(w, 'X', res) == Success(w.(controls := w.controls.(carte := 2)))
  {
  }

  /** A frame keeps the invariant. */
  lemma RenderKeepsInv(w: Window, draws: seq<Draw>)
    requires Inv(w) && |draws| == |w.pool|
    ensures Inv(Render(w, draws).0)
  {
    TickPreservesValid(w.mesh, w.season, w.pool, draws, Terrain(w.mesh, w.controls.camera.etat, w.season, w.colour).colour);
  }

  /**
   * A frame draws the terrain of the current mode first and the particles
   * after it; the transform uses the camera before the turn; the turn adds
   * `speed` to `rotY` exactly when animation is on; nothing else but the
   * pool, the current colour and the frame counter changes.
   */
  lemma RenderFrame(w: Window, draws: seq<Draw>)
    requires Inv(w) && |draws| == |w.pool|
    ensures var (w', f) := Render(w, draws);
      var cam := w.controls.camera;
      var terrain := Terrain(w.mesh, cam.etat, w.season, w.colour);
      f.passes[..|terrain.passes|] == terrain.passes &&
      f.passes[|terrain.passes|..] == Tick(w.mesh, w.season, w.pool, draws, terrain.colour).painted.passes &&
      f.scale == cam.ss && f.rotX == cam.rotX && f.rotY == cam.rotY &&
      (w'.controls.camera.rotY == cam.rotY + w.speed <==> w.controls.animate) &&
      (!w.controls.animate ==> w'.controls.camera.rotY == cam.rotY) &&
      w'.controls.camera.(rotY := cam.rotY) == cam &&
      w'.controls.(camera := cam) == w.controls &&
      w'.season == w.season && w'.image == w.image && w'.mesh == w.mesh && w'.speed == w.speed &&
      w'.frame == w.frame + 1
  {
  }

  /**
   * Two consecutive frames with the same mesh, mode and season draw the same
   * terrain, even though the first frame changes the current colour the second
   * starts from: a season name fixes the tint outright, and with any other
   * string the modes that draw in the current colour leave it as it was while
   * the other modes never read it.
   */
  lemma TerrainRepeats(w: Window, draws: seq<Draw>)
    requires Inv(w) && |draws| == |w.pool|
    ensures var w' := Render(w, draws).0;
      Terrain(w'.mesh, w'.controls.camera.etat, w'.season, w'.colour).passes ==
      Terrain(w.mesh, w.controls.camera.etat, w.season, w.colour).passes
  {
    SeasonColorIsLookup(w.season, w.colour);
    SeasonColorIsLookup(w.season, Terrain(w.mesh, w.controls.camera.etat, w.season, w.colour).colour);
    SeasonTintKeys();
  }

  /** Outside autumn and winter a frame leaves the particles where they are and draws only the terrain. */
  lemma RenderNoPrecipitation(w: Window, draws: seq<Draw>)
    requires Inv(w) && |draws| == |w.pool| && w.season != Autumn && w.season != Winter
    ensures var (w', f) := Render(w, draws);
      w'.pool == w.pool &&
      f.passes == Terrain(w.mesh, w.controls.camera.etat, w.season, w.colour).passes
  {
    TickGate(w.mesh, w.season, w.pool, draws, Terrain(w.mesh, w.controls.camera.etat, w.season, w.colour).colour);
  }

  /** Each read replaces the season outright: only the last payload counts, and reading keeps the invariant. */
  lemma ReadyReadLastWins(w: Window, a: string, b: string)
    ensures ReadyRead(ReadyRead(w, a), b) == ReadyRead(w, b)
    ensures Inv(w) ==> Inv(ReadyRead(w, a))
  {
  }

  /**
   * Two broadcasts read together form a string that is no season name: the
   * terrain then keeps the colour it had and the particles stop.
   */
  lemma GluedPayload(w: Window, a: string, b: string, draws: seq<Draw>)
    requires Inv(w) && |draws| == |w.pool| && IsSeasonName(a) && IsSeasonName(b)
    ensures var w' := ReadyRead(w, a + b);
      SeasonColor(w'.season, w.colour) == w.colour && Render(w', draws).0.pool == w.pool
  {
    GluedNamesTintNothing(a, b, w.colour);
    SeasonTintKeys();
    RenderNoPrecipitation(ReadyRead(w, a + b), draws);
  }
}
