/** The SVG elements the shapes emit in `toSVG`. Only the element kind and
    its numeric attributes are modelled; the text formatting of numbers and
    the pass-through `attrs` string are not. */
module Svg {
  import opened Rasterize

  datatype Element =
    | Rect(x: real, y: real, width: real, height: real)
    | Ellipse(cx: real, cy: real, rx: real, ry: real)
    | Polygon(points: seq<Vertex>)

  /** One committed shape: its element with the `fill` colour (as `hex`
      text) and the `fill-opacity` `a / 255` of its colour. */
  datatype Painted = Painted(element: Element, fill: string, opacity: real)

  /** A whole picture: the `width` x `height` root, the background `rect`
      filled with `background`, and a group transformed by `scale(scale)`
      followed by the constant half-pixel `translate(0.5 0.5)`, holding the
      painted shapes in order. Only the scale is recorded, since the
      translate is the same for every document. */
  datatype Document = Document(width: int, height: int, background: string, scale: real, body: seq<Painted>)
}
