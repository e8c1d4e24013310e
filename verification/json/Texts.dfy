// The texts the two printers write for a value.
module JsonTexts {
  import opened JsonValues

  function EscapeChar(c: char): string
  {
    if c == '"' || c == '\\' || c == '/' then ['\\', c]
    else if c == '\U{0008}' then "\\b"
    else if c == '\U{000C}' then "\\f"
    else if c == '\n' then "\\n"
    else if c == '\r' then "\\r"
    else if c == '\t' then "\\t"
    else [c]
  }

  function Escape(s: string): string
  {
    if s == "" then "" else EscapeChar(s[0]) + Escape(s[1..])
  }

  // how a C text is written: only what comes before its first NUL
  function Quoted(s: string): string
  {
    "\"" + Escape(Cut(s)) + "\""
  }

  function Digit(d: nat): (c: char)
    requires d < 10
    ensures '0' <= c <= '9'
  {
    ('0' as int + d) as char
  }

  function NatText(n: nat): (r: string)
    ensures |r| > 0 && '0' <= r[0] <= '9'
  {
    if n < 10 then [Digit(n)] else NatText(n / 10) + [Digit(n % 10)]
  }

  function IntText(n: int): string
  {
    if n < 0 then "-" + NatText(-n) else NatText(n)
  }

  function Indent(size: int): string
    decreases size
  {
    if size <= 0 then "" else "    " + Indent(size - 1)
  }

  // How a printer writes: on one line, or indented; image is the text the C library gives for a floating point value.
  datatype Style = Style(indented: bool, image: real -> string)
  {
    // the blank text after an opening bracket, after a comma, before a closing bracket, between the brackets of an
    // empty list
    function Open(depth: int): string { if indented then "\n" + Indent(depth + 1) else " " }
    function Next(depth: int): string { Open(depth) }
    function Close(depth: int): string { if indented then "\n" + Indent(depth) else " " }
    function Hollow(depth: int): string { if indented then "\n" + Indent(depth) else "" }
  }

  function Text(v: Json, style: Style, depth: int): string
    decreases v, 0
  {
    match v
    case Null => "null"
    case Integer(n) => IntText(n)
    case Float(f) => style.image(f)
    case String(t) => Quoted(t)
    case Boolean(b) => if b then "true" else "false"
    case Array(items) =>
      if items == [] then "[" + style.Hollow(depth) + "]"
      else "[" + style.Open(depth) + ItemTexts(items, style, depth) + style.Close(depth) + "]"
    case Object(entries) =>
      if entries == [] then "{" + style.Hollow(depth) + "}"
      else "{" + style.Open(depth) + EntryTexts(entries, style, depth) + style.Close(depth) + "}"
  }

  function ItemTexts(items: seq<Json>, style: Style, depth: int): string
    requires items != []
    decreases items, 0
  {
    Text(items[0], style, depth + 1)
    + if |items| == 1 then "" else "," + style.Next(depth) + ItemTexts(items[1..], style, depth)
  }

  function EntryText(e: Entry, style: Style, depth: int): string
    decreases e, 0
  {
    Quoted(e.key) + " : " + Text(e.value, style, depth + 1)
  }

  function EntryTexts(entries: seq<Entry>, style: Style, depth: int): string
    requires entries != []
    decreases entries, 0
  {
    EntryText(entries[0], style, depth)
    + if |entries| == 1 then "" else "," + style.Next(depth) + EntryTexts(entries[1..], style, depth)
  }
}
