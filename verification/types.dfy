/** The enums and records shared by the scene (types.ts) and the tuning
    constants (constants.ts). */
module Types {
  import opened Wrappers
  import opened Geometry

  /** The scene mode; exactly one is active and the app starts in `Tree`. */
  datatype AppMode = Tree | Scattered | PhotoZoom

  /** The classifier's output. `NoGesture` is the source's `NONE`; `Pointing`
      is declared but never produced. */
  datatype GestureType = NoGesture | Fist | OpenPalm | Pinch | Pointing

  datatype ParticleKind = Sphere | Cube | Candy | Photo

  /** Colours are tags; the hex value of each is given beside it. */
  datatype Colour =
    | MatteGreen    // #2D5A27
    | MetallicGold  // #FFD700
    | ChristmasRed  // #C41E3A
    | White         // #FFFFFF
    | Glow          // #FFDD44
    | Black         // 'black'
    | Amber         // #FF8800
    | DarkGrey      // #222222
    | Orange        // #ffaa00
    | Maroon        // #330000

  /** An image handle produced by the upload handler, used only as a value. */
  type Url = string

  /** One visual entity: a photo or an ornament. */
  datatype Particle = Particle(
    id: nat,
    initialPos: Vec3,     // position in the tree
    scatteredPos: Vec3,   // position in the scattered cloud
    kind: ParticleKind,
    color: Colour,
    scale: real,
    rotationSpeed: Vec3,
    photoUrl: Option<Url>)

  /** The steering position of the hand, each axis in [-1, 1]. */
  datatype HandPos = HandPos(x: real, y: real)

  /** One normalised hand landmark. */
  datatype Landmark = Landmark(x: real, y: real, z: real)

  /** The `CONFIG` table. */
  const ParticleCount: nat := 150
  const TreeHeight: real := 12.0
  const TreeRadius: real := 5.0
  const ScatterRadius: real := 15.0
  const CameraSmoothing: real := 0.1
  const LerpSpeed: real := 0.05
}
