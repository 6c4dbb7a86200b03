/**
 The value types of the Valentine page: its configuration constants, the three
 kinds of heart particle, and the pure generators that build them.

 Every `Math.random()` call of the page is a "draw": a real number in [0, 1)
 handed in by the caller, so that the shape of each generated batch (how many
 hearts, which ids, which ranges) can be stated exactly.
 */
module Hearts {

  /** Number of evasions before the button can be clicked. */
  const MaxEscapes: nat := 5

  /** Number of glyphs in the page's heart emoji list; a heart keeps an index into it. */
  const EmojiCount: nat := 8

  const FloatingCount: nat := 15
  const TrailSize: nat := 3
  const BurstCount: nat := 60

  /** The button's box and the placement padding, in CSS pixels. */
  const ButtonWidth: real := 200.0
  const ButtonHeight: real := 70.0
  const Padding: real := 20.0

  /** Half the side of the square around the old button centre where trail hearts land. */
  const TrailJitter: real := 20.0

  /** The value of JavaScript's `Math.PI`, read as an exact real. */
  const Pi: real := 3.141592653589793

  datatype Option<T> = None | Some(value: T)

  datatype Point = Point(x: real, y: real)

  /** A background heart: horizontal position in percent, size in px, animation timing in s. */
  datatype FloatingHeart = FloatingHeart(id: int, left: real, size: real, duration: real, delay: real, emoji: nat)

  /** A heart left behind where the button was, at viewport coordinates (x, y). */
  datatype TrailHeart = TrailHeart(id: int, x: real, y: real, emoji: nat)

  /**
   A heart of the acceptance burst. The page flies it to the offset
   (cos(angle) * distance, sin(angle) * distance); the model keeps the polar form.
   */
  datatype BurstHeart = BurstHeart(id: int, angle: real, distance: real, size: real, emoji: nat, rotation: real)

  /** A value `Math.random()` can return. */
  predicate IsUnit(r: real) {
    0.0 <= r < 1.0
  }

  /** The draws one floating heart consumes, in the order the page makes them. */
  datatype FloatingDraw = FloatingDraw(left: real, size: real, duration: real, delay: real, emoji: real) {
    predicate Valid() {
      IsUnit(left) && IsUnit(size) && IsUnit(duration) && IsUnit(delay) && IsUnit(emoji)
    }
  }

  /** The draws one trail heart consumes. */
  datatype TrailDraw = TrailDraw(dx: real, dy: real, emoji: real) {
    predicate Valid() {
      IsUnit(dx) && IsUnit(dy) && IsUnit(emoji)
    }
  }

  /** The draws one burst heart consumes. */
  datatype BurstDraw = BurstDraw(jitter: real, distance: real, size: real, emoji: real, rotation: real) {
    predicate Valid() {
      IsUnit(jitter) && IsUnit(distance) && IsUnit(size) && IsUnit(emoji) && IsUnit(rotation)
    }
  }

  /** `Math.floor(r * HEART_EMOJIS.length)`: picks a glyph index. */
  function EmojiIndex(r: real): (k: nat)
    requires IsUnit(r)
    ensures k < EmojiCount
    ensures k as real <= r * EmojiCount as real < k as real + 1.0
  {
    (r * EmojiCount as real).Floor
  }

  // ---------------------------------------------------------------- floating

  /** The ranges a background heart lives in. */
  predicate FloatingInRange(h: FloatingHeart) {
    && 0.0 <= h.left < 100.0
    && 16.0 <= h.size < 40.0
    && 8.0 <= h.duration < 20.0
    && 0.0 <= h.delay < 10.0
    && h.emoji < EmojiCount
  }

  /** A well-formed set of background hearts: 15 of them, numbered 0..14, each in range. */
  predicate IsFloatingSet(hs: seq<FloatingHeart>) {
    && |hs| == FloatingCount
    && forall i :: 0 <= i < |hs| ==> hs[i].id == i && FloatingInRange(hs[i])
  }

  function FloatingHeartAt(i: nat, d: FloatingDraw): (h: FloatingHeart)
    requires d.Valid()
    ensures h.id == i && FloatingInRange(h)
  {
    FloatingHeart(i, d.left * 100.0, 16.0 + d.size * 24.0, 8.0 + d.duration * 12.0,
                  d.delay * 10.0, EmojiIndex(d.emoji))
  }

  /** The background hearts generated once when the page mounts. */
  function FloatingHearts(draws: seq<FloatingDraw>): (hs: seq<FloatingHeart>)
    requires |draws| == FloatingCount
    requires forall i :: 0 <= i < |draws| ==> draws[i].Valid()
    ensures IsFloatingSet(hs)
  {
    seq(FloatingCount, i requires 0 <= i < FloatingCount => FloatingHeartAt(i, draws[i]))
  }

  // ---------------------------------------------------------------- trail

  /** The centre of the button when its top-left corner is at `p`. */
  function Centre(p: Point): Point {
    Point(p.x + ButtonWidth / 2.0, p.y + ButtonHeight / 2.0)
  }

  /** `h` lies in the half-open square of side 40 around the centre of a button at `p`. */
  predicate NearButton(h: TrailHeart, p: Point) {
    && -TrailJitter <= h.x - Centre(p).x < TrailJitter
    && -TrailJitter <= h.y - Centre(p).y < TrailJitter
  }

  function TrailHeartAt(prev: Point, id: int, d: TrailDraw): (h: TrailHeart)
    requires d.Valid()
    ensures h.id == id && NearButton(h, prev) && h.emoji < EmojiCount
  {
    TrailHeart(id, Centre(prev).x + (d.dx - 0.5) * 40.0, Centre(prev).y + (d.dy - 0.5) * 40.0,
               EmojiIndex(d.emoji))
  }

  /**
   The 3 hearts an evasion leaves around the button's previous position `prev`.
   The page reads the millisecond clock once per heart, so heart `i` gets the id
   `clock[i] + i`, where `clock` holds the three readings in the order they are taken.
   */
  function TrailBatch(prev: Point, clock: seq<int>, draws: seq<TrailDraw>): (batch: seq<TrailHeart>)
    requires |clock| == TrailSize
    requires |draws| == TrailSize
    requires forall i :: 0 <= i < |draws| ==> draws[i].Valid()
    ensures |batch| == TrailSize
    ensures forall i :: 0 <= i < |batch| ==>
              batch[i].id == clock[i] + i && NearButton(batch[i], prev) && batch[i].emoji < EmojiCount
  {
    seq(TrailSize, i requires 0 <= i < TrailSize => TrailHeartAt(prev, clock[i] + i, draws[i]))
  }

  // ---------------------------------------------------------------- burst

  /** The direction of the `i`-th of 60 evenly spread burst hearts, before jitter. */
  function SectorAngle(i: int): real {
    Pi * 2.0 * i as real / BurstCount as real
  }

  /** The ranges a burst heart lives in, when it is the `i`-th of the burst. */
  predicate BurstInRange(h: BurstHeart, i: int) {
    && h.id == i
    && -0.25 <= h.angle - SectorAngle(i) < 0.25
    && 150.0 <= h.distance < 550.0
    && 16.0 <= h.size < 48.0
    && 0.0 <= h.rotation < 360.0
    && h.emoji < EmojiCount
  }

  /** A well-formed burst: exactly 60 hearts, numbered 0..59, spread around the circle. */
  predicate IsBurst(hs: seq<BurstHeart>) {
    && |hs| == BurstCount
    && forall i :: 0 <= i < |hs| ==> BurstInRange(hs[i], i)
  }

  function BurstHeartAt(i: nat, d: BurstDraw): (h: BurstHeart)
    requires d.Valid()
    ensures BurstInRange(h, i)
  {
    BurstHeart(i, SectorAngle(i) + (d.jitter - 0.5) * 0.5, 150.0 + d.distance * 400.0,
               16.0 + d.size * 32.0, EmojiIndex(d.emoji), d.rotation * 360.0)
  }

  /** The hearts created by an accepting click. */
  function BurstHearts(draws: seq<BurstDraw>): (hs: seq<BurstHeart>)
    requires |draws| == BurstCount
    requires forall i :: 0 <= i < |draws| ==> draws[i].Valid()
    ensures IsBurst(hs)
  {
    seq(BurstCount, i requires 0 <= i < BurstCount => BurstHeartAt(i, draws[i]))
  }
}
