/** The runtime helpers that write a value, and the choice the generated code makes between them. */
module Runtime {
  import opened Html
  import opened UrlPolicy
  import opened Analysis

  /** What fills a hole of a template: an ordinary value, as the text fmt.Sprint gives it; a value wrapped by one
      of the Trust constructors; or what a component wrote. */
  datatype Fill =
    | Ordinary(value: seq<Rune>)
    | TrustedHtml(text: string)
    | TrustedJs(text: string)
    | TrustedCss(text: string)
    | Component(text: string)

  datatype Emitted = Bytes(text: string) | Refused(reason: string)

  function StringValue(fill: Fill): seq<Rune> { if fill.Ordinary? then fill.value else Lift(fill.text) }

  /** WriteRCDATA and WriteAttr, and WriteText but for trusted HTML. */
  function Escaped(fill: Fill): string { Escape(NormalizeText(StringValue(fill))) }

  function WriteText(fill: Fill): string { if fill.TrustedHtml? then fill.text else Escaped(fill) }

  function WriteUrl(lib: Library, fill: Fill): Emitted {
    match CanonicalUrl(lib, StringValue(fill))
    case Canonical(url) => Bytes(Escape(url))
    case Unsafe(reason, scheme) => Refused(reason)
  }

  /** The types of generated code: only a component renders as one, and script and style take only their own
      trusted type. */
  predicate Fits(node: Node, fill: Fill) {
    && (node.kind.ComponentNode? <==> fill.Component?)
    && (node.kind.ExpressionNode? && node.context.Js? ==> fill.TrustedJs?)
    && (node.kind.ExpressionNode? && node.context.Css? ==> fill.TrustedCss?)
  }

  /** What the generated code writes for an expression, by its context. */
  function WriteIn(lib: Library, context: Context, fill: Fill): Emitted {
    match context
    case Attr | Rcdata => Bytes(Escaped(fill))
    case Url => WriteUrl(lib, fill)
    case Js | Css => if fill.Ordinary? then Bytes("") else Bytes(fill.text)
    case HtmlText | NoContext => Bytes(WriteText(fill))
  }

  /** What the generated code writes for one node. */
  function WriteNode(lib: Library, node: Node, fill: Fill): Emitted {
    match node.kind
    case TextNode => Bytes(node.text)
    case StatementNode | CommentNode => Bytes("")
    case ExpressionNode => WriteIn(lib, node.context, fill)
    case ComponentNode => if fill.Component? then Bytes(fill.text) else Bytes("")
  }

  /** What the nodes from `lo` up to `hi` write, or the refusal that ends the rendering. */
  function Output(lib: Library, ir: seq<Node>, fills: seq<Fill>, lo: nat, hi: nat): Emitted
    requires lo <= hi <= |ir| == |fills|
  {
    if lo == hi then Bytes("")
    else
      var before := Output(lib, ir, fills, lo, hi - 1);
      if before.Refused? then before
      else match WriteNode(lib, ir[hi - 1], fills[hi - 1])
        case Bytes(text) => Bytes(before.text + text)
        case Refused(reason) => Refused(reason)
  }
}
