/** Shared value types of the game: an optional value, 2D vectors and
    rectangles, interaction kinds, high-score pairs and render objects. */
module Util {

  datatype Option<+T> = None | Some(value: T)

  /** A 2D vector (Processing's PVector), with exact real components. */
  datatype Vec = Vec(x: real, y: real) {
    function Plus(o: Vec): Vec { Vec(x + o.x, y + o.y) }
  }

  const Zero: Vec := Vec(0.0, 0.0)

  /** An axis-aligned rectangle, in the order [minX, minY, maxX, maxY]. */
  datatype Rect = Rect(minX: real, minY: real, maxX: real, maxY: real) {
    function Width(): real { maxX - minX }
    function Height(): real { maxY - minY }
  }

  /** The kinds of user interaction passed down to UI elements. */
  datatype InteractionType = MouseHover | MouseDown | MouseUp | KbDown | KbUp {
    predicate IsMouse() { this == MouseDown || this == MouseUp || this == MouseHover }
  }

  /** One high-score table entry: a score (`key`) and a player name (`value`). */
  datatype ScorePair = ScorePair(key: int, value: string)

  /** An item of the render pipeline. Only what the modelled code decides is
      kept: the kind of item and its geometry; colours are left out. */
  datatype RenderObject =
    | RectItem(x: real, y: real, w: real, h: real)
    | ImageItem(x: real, y: real, w: real, h: real)
    | TextItem(text: string, x: real, y: real, w: real, h: real)
    | Opaque(id: int)
}
