/** The usual optional value; the sketchpad uses it for its nullable slots. */
module Wrappers {
  datatype Option<+T> = None | Some(value: T)
}

/**
 * The values the sketchpad works with: pointer positions, the two kinds of
 * tool, the value of a drawing command and the preview under the cursor.
 * None of these is updated in place in the source once it is built.
 */
module Shapes {

  /** A pointer position in canvas pixels (the event's offsetX and offsetY). */
  datatype Point = Point(x: int, y: int)

  /** The points of a drawing command: a command starts with its press point and only grows. */
  type Path = s: seq<Point> | |s| > 0 witness [Point(0, 0)]

  /** A marker draws lines of a fixed width. */
  datatype Marker = Marker(lineWidth: int)

  /** A sticker stamps its name (an emoji or any text) at a size. */
  datatype Sticker = Sticker(size: int, name: string)

  const Start := 0
  const StickerSize := 4
  const Thin := 2
  const Thick := 4

  const ThinMarker := Marker(Thin)
  const ThickMarker := Marker(Thick)

  /** The sticker palette the page starts with. */
  const DefaultStickers := [Sticker(StickerSize, "🐱"), Sticker(StickerSize, "🐾"), Sticker(StickerSize, "🐈")]

  /** What a drawing command draws with: a line command's marker or a sticker command's sticker. */
  datatype Kind = Line(marker: Marker) | Stamp(sticker: Sticker)

  /** The value of a drawing command at one moment: its kind and its points so far. */
  datatype CommandValue = CommandValue(kind: Kind, points: Path)

  /** The glyph shown under the cursor while nothing is being drawn. */
  datatype Preview =
    | LinePreview(x: int, y: int, marker: Marker)
    | StickerPreview(x: int, y: int, sticker: Sticker)
}
