// Where the lines of an indented print begin.
module JsonLayout {
  import opened JsonValues
  import opened JsonTexts

  function Blanks(s: string): (n: nat)
    ensures n <= |s|
  {
    if s != "" && s[0] == ' ' then 1 + Blanks(s[1..]) else 0
  }

  predicate Closes(s: string) { s != "" && (s[0] == ']' || s[0] == '}') }

  // Every line of s begins four columns further for each bracket that is open there, outside string literals. A
  // closing bracket at the front of a line counts as closed.
  predicate Aligned(s: string, depth: int, quoted: bool)
    decreases |s|
  {
    if s == "" then true
    else if quoted then
      if s[0] == '\\' && |s| > 1 then Aligned(s[2..], depth, true) else Aligned(s[1..], depth, s[0] != '"')
    else if s[0] == '"' then Aligned(s[1..], depth, true)
    else if s[0] == '[' || s[0] == '{' then Aligned(s[1..], depth + 1, false)
    else if s[0] == ']' || s[0] == '}' then Aligned(s[1..], depth - 1, false)
    else
      && Aligned(s[1..], depth, false)
      && (s[0] == '\n' ==>
            var n := Blanks(s[1..]); n == 4 * if Closes(s[1..][n..]) then depth - 1 else depth)
  }

  // a text without brackets, quotation marks and line ends
  ghost predicate Calm(s: string)
  {
    forall i :: 0 <= i < |s| ==> s[i] !in "\"[]{}\n"
  }

  // the text of a number has no blanks either
  ghost predicate Compact(s: string)
  {
    s != "" && ' ' !in s && Calm(s)
  }

  ghost predicate CompactImages(style: Style) { forall f :: Compact(style.image(f)) }

  lemma {:induction false} CalmRun(s: string, depth: int, post: string)
    requires Calm(s)
    ensures Aligned(s + post, depth, false) == Aligned(post, depth, false)
  {
    if s == "" {
      assert s + post == post;
    } else {
      assert (s + post)[1..] == s[1..] + post;
      CalmRun(s[1..], depth, post);
    }
  }

  lemma QuotedChar(c: char, depth: int, more: string)
    ensures Aligned(EscapeChar(c) + more, depth, true) == Aligned(more, depth, true)
  {
    var s := EscapeChar(c) + more;
    if |EscapeChar(c)| == 2 {
      assert s[2..] == more;
    } else {
      assert s[1..] == more;
    }
  }

  lemma Marks(depth: int, post: string)
    ensures Aligned("\"" + post, depth, true) == Aligned(post, depth, false)
    ensures Aligned("\"" + post, depth, false) == Aligned(post, depth, true)
  {
    assert ("\"" + post)[1..] == post;
  }

  lemma EscapeParts(t: string, post: string)
    ensures t == "" ==> Escape(t) + post == post
    ensures t != "" ==> Escape(t) + post == EscapeChar(t[0]) + (Escape(t[1..]) + post)
  {
    hide EscapeChar;
  }

  lemma {:induction false} QuotedRun(t: string, depth: int, post: string)
    ensures Aligned(Escape(t) + ("\"" + post), depth, true) == Aligned(post, depth, false)
  {
    hide *;
    EscapeParts(t, "\"" + post);
    if t == "" {
      Marks(depth, post);
    } else {
      QuotedRun(t[1..], depth, post);
      QuotedChar(t[0], depth, Escape(t[1..]) + ("\"" + post));
    }
  }

  lemma QuotedAligned(t: string, depth: int, post: string)
    ensures Aligned(Quoted(t) + post, depth, false) == Aligned(post, depth, false)
  {
    hide Aligned, Escape;
    QuotedRun(Cut(t), depth, post);
    Marks(depth, Escape(Cut(t)) + ("\"" + post));
    assert Quoted(t) + post == "\"" + (Escape(Cut(t)) + ("\"" + post));
  }

  lemma {:induction false} IndentIs(size: int, rest: string)
    requires rest == "" || rest[0] != ' '
    ensures Calm(Indent(size)) && Blanks(Indent(size) + rest) == 4 * (if size < 0 then 0 else size) == |Indent(size)|
    decreases size
  {
    if size <= 0 {
      assert "" + rest == rest;
    } else {
      IndentIs(size - 1, rest);
      FourBlanks(Indent(size - 1) + rest);
      assert Indent(size) + rest == "    " + (Indent(size - 1) + rest);
    }
  }

  lemma FourBlanks(s: string)
    ensures Blanks("    " + s) == 4 + Blanks(s)
  {
    OneBlank(s);
    OneBlank(" " + s);
    OneBlank("  " + s);
    OneBlank("   " + s);
    assert "  " + s == " " + (" " + s) && "   " + s == " " + ("  " + s) && "    " + s == " " + ("   " + s);
  }

  lemma OneBlank(s: string)
    ensures Blanks(" " + s) == 1 + Blanks(s)
  {
    assert (" " + s)[1..] == s;
  }

  lemma NewLine(size: nat, depth: int, rest: string)
    requires rest != "" && rest[0] != ' '
    ensures Aligned("\n" + Indent(size) + rest, depth, false)
        <==> Aligned(rest, depth, false) && size == if Closes(rest) then depth - 1 else depth
  {
    IndentIs(size, rest);
    CalmRun(Indent(size), depth, rest);
    var line := Indent(size) + rest;
    assert ("\n" + Indent(size) + rest)[1..] == line;
    assert line[|Indent(size)|..] == rest;
  }

  lemma Brackets(depth: int, post: string)
    ensures Aligned("[" + post, depth, false) == Aligned("{" + post, depth, false) == Aligned(post, depth + 1, false)
    ensures Aligned("]" + post, depth, false) == Aligned("}" + post, depth, false) == Aligned(post, depth - 1, false)
  {
    assert ("[" + post)[1..] == post && ("{" + post)[1..] == post;
    assert ("]" + post)[1..] == post && ("}" + post)[1..] == post;
  }

  lemma {:induction false} NatTextCompact(n: nat)
    ensures Compact(NatText(n))
  {
    if n >= 10 { NatTextCompact(n / 10); }
  }

  // a value that is not a list is written on one line
  lemma ScalarAligned(v: Json, style: Style, depth: int, at: int, post: string)
    requires !v.Array? && !v.Object? && CompactImages(style)
    ensures Aligned(Text(v, style, depth) + post, at, false) == Aligned(post, at, false)
  {
    match v
    case Integer(n) =>
      NatTextCompact(if n < 0 then -n else n);
      CalmRun(IntText(n), at, post);
    case String(t) => QuotedAligned(t, at, post);
    case Null => CalmRun("null", at, post);
    case Boolean(b) => CalmRun(if b then "true" else "false", at, post);
    case Float(f) =>
      assert Compact(style.image(f));
      CalmRun(style.image(f), at, post);
  }

  lemma TextBegins(v: Json, style: Style, depth: int, post: string)
    requires CompactImages(style)
    ensures var s := Text(v, style, depth) + post; s != "" && s[0] != ' ' && !Closes(s)
  {
    match v
    case Integer(n) => NatTextCompact(if n < 0 then -n else n);
    case Float(f) => assert Compact(style.image(f)); assert style.image(f)[0] != ' ';
    case _ =>
  }

  // between an opening and a closing bracket
  lemma ListAligned(left: string, inner: string, right: string, depth: nat, post: string)
    requires (left == "[" && right == "]") || (left == "{" && right == "}")
    requires inner != "" && inner[0] != ' ' && !Closes(inner)
    requires forall more :: Aligned(inner + more, depth + 1, false) == Aligned(more, depth + 1, false)
    ensures Aligned(left + ("\n" + Indent(depth + 1)) + inner + ("\n" + Indent(depth)) + right + post, depth, false)
         == Aligned(post, depth, false)
  {
    hide Aligned, Indent;
    var last := right + post;
    var more := "\n" + Indent(depth) + last;
    NewLine(depth, depth + 1, last);
    Brackets(depth + 1, post);
    NewLine(depth + 1, depth + 1, inner + more);
    Brackets(depth, "\n" + Indent(depth + 1) + (inner + more));
    assert left + ("\n" + Indent(depth + 1)) + inner + ("\n" + Indent(depth)) + right + post
        == left + ("\n" + Indent(depth + 1) + (inner + more));
  }

  lemma HollowAligned(left: string, right: string, depth: nat, post: string)
    requires (left == "[" && right == "]") || (left == "{" && right == "}")
    ensures Aligned(left + ("\n" + Indent(depth)) + right + post, depth, false) == Aligned(post, depth, false)
  {
    hide Aligned, Indent;
    var last := right + post;
    NewLine(depth, depth + 1, last);
    Brackets(depth + 1, post);
    Brackets(depth, "\n" + Indent(depth) + last);
    assert left + ("\n" + Indent(depth)) + right + post == left + ("\n" + Indent(depth) + last);
  }

  // ---------- whole values

  lemma {:induction false} TextAligned(v: Json, style: Style, depth: nat, post: string)
    requires style.indented && CompactImages(style)
    ensures Aligned(Text(v, style, depth) + post, depth, false) == Aligned(post, depth, false)
    decreases v, 1
  {
    hide *;
    match v
    case Array(items) =>
      if items == [] {
        HollowAligned("[", "]", depth, post);
      } else {
        var inner := ItemTexts(items, style, depth);
        ItemsBegin(items, style, depth);
        forall more ensures Aligned(inner + more, depth + 1, false) == Aligned(more, depth + 1, false) {
          ItemsAligned(items, style, depth, more);
        }
        ListAligned("[", inner, "]", depth, post);
      }
      ListText(v, style, depth);
    case Object(entries) =>
      if entries == [] {
        HollowAligned("{", "}", depth, post);
      } else {
        var inner := EntryTexts(entries, style, depth);
        EntriesBegin(entries, style, depth);
        forall more ensures Aligned(inner + more, depth + 1, false) == Aligned(more, depth + 1, false) {
          EntriesAligned(entries, style, depth, more);
        }
        ListAligned("{", inner, "}", depth, post);
      }
      ListText(v, style, depth);
    case _ => ScalarAligned(v, style, depth, depth, post);
  }

  lemma ListText(v: Json, style: Style, depth: nat)
    requires style.indented
    ensures v.Array? ==>
      Text(v, style, depth) ==
      if v.items == [] then "[" + ("\n" + Indent(depth)) + "]"
      else "[" + ("\n" + Indent(depth + 1)) + ItemTexts(v.items, style, depth) + ("\n" + Indent(depth)) + "]"
    ensures v.Object? ==>
      Text(v, style, depth) ==
      if v.entries == [] then "{" + ("\n" + Indent(depth)) + "}"
      else "{" + ("\n" + Indent(depth + 1)) + EntryTexts(v.entries, style, depth) + ("\n" + Indent(depth)) + "}"
  {
    hide Indent, ItemTexts, EntryTexts;
  }

  // the first item and what is written behind it
  lemma ItemsParts(items: seq<Json>, style: Style, depth: nat, post: string)
    requires items != [] && style.indented
    ensures var first := Text(items[0], style, depth + 1);
      ItemTexts(items, style, depth) + post
      == if |items| == 1 then first + post
         else first + ("," + ("\n" + Indent(depth + 1) + (ItemTexts(items[1..], style, depth) + post)))
  {
    hide Text, Indent;
    if |items| > 1 {
      hide ItemTexts;
      ItemsUnfold(items, style, depth);
    }
  }

  lemma ItemsUnfold(items: seq<Json>, style: Style, depth: nat)
    requires |items| > 1 && style.indented
    ensures ItemTexts(items, style, depth)
      == Text(items[0], style, depth + 1) + ("," + ("\n" + Indent(depth + 1)) + ItemTexts(items[1..], style, depth))
  {
    hide Text, Indent;
  }

  lemma ItemsBegin(items: seq<Json>, style: Style, depth: nat)
    requires items != [] && style.indented && CompactImages(style)
    ensures var s := ItemTexts(items, style, depth); s != "" && s[0] != ' ' && !Closes(s)
  {
    hide *;
    var s := ItemTexts(items, style, depth);
    ItemsParts(items, style, depth, "");
    assert s + "" == s;
    TextBegins(items[0], style, depth + 1, "");
    if |items| > 1 {
      TextBegins(items[0], style, depth + 1,
        "," + ("\n" + Indent(depth + 1) + (ItemTexts(items[1..], style, depth) + "")));
    }
    assert Text(items[0], style, depth + 1) + "" == Text(items[0], style, depth + 1);
  }

  lemma {:induction false} ItemsAligned(items: seq<Json>, style: Style, depth: nat, post: string)
    requires items != [] && style.indented && CompactImages(style)
    ensures Aligned(ItemTexts(items, style, depth) + post, depth + 1, false) == Aligned(post, depth + 1, false)
    decreases items, 0
  {
    hide *;
    ItemsParts(items, style, depth, post);
    if |items| == 1 {
      TextAligned(items[0], style, depth + 1, post);
    } else {
      var rest := ItemTexts(items[1..], style, depth) + post;
      var line := "\n" + Indent(depth + 1) + rest;
      TextAligned(items[0], style, depth + 1, "," + line);
      Comma(depth + 1, line);
      ItemsBegin(items[1..], style, depth);
      NewLine(depth + 1, depth + 1, rest);
      StillOpen(ItemTexts(items[1..], style, depth), post);
      ItemsAligned(items[1..], style, depth, post);
    }
  }

  lemma Comma(depth: int, post: string)
    ensures Aligned("," + post, depth, false) == Aligned(post, depth, false)
    ensures Aligned(" : " + post, depth, false) == Aligned(post, depth, false)
  {
    CalmRun(",", depth, post);
    CalmRun(" : ", depth, post);
  }

  lemma StillOpen(s: string, post: string)
    requires s != "" && !Closes(s)
    ensures !Closes(s + post)
  {
  }

  lemma EntriesParts(entries: seq<Entry>, style: Style, depth: nat, post: string)
    requires entries != [] && style.indented
    ensures var value := Text(entries[0].value, style, depth + 1);
      EntryTexts(entries, style, depth) + post
      == Quoted(entries[0].key) + (" : " + (value +
           if |entries| == 1 then post
           else "," + ("\n" + Indent(depth + 1) + (EntryTexts(entries[1..], style, depth) + post))))
  {
    hide Text, Indent, Quoted;
    if |entries| > 1 {
      hide EntryTexts;
      EntriesUnfold(entries, style, depth);
    }
  }

  lemma EntriesUnfold(entries: seq<Entry>, style: Style, depth: nat)
    requires |entries| > 1 && style.indented
    ensures EntryTexts(entries, style, depth)
      == Quoted(entries[0].key) + " : " + Text(entries[0].value, style, depth + 1)
         + ("," + ("\n" + Indent(depth + 1)) + EntryTexts(entries[1..], style, depth))
  {
    hide Text, Indent, Quoted;
  }

  lemma EntriesBegin(entries: seq<Entry>, style: Style, depth: nat)
    requires entries != [] && style.indented
    ensures var s := EntryTexts(entries, style, depth); s != "" && s[0] == '"' && !Closes(s)
  {
    hide Text, Indent, Escape;
  }

  lemma {:induction false} EntriesAligned(entries: seq<Entry>, style: Style, depth: nat, post: string)
    requires entries != [] && style.indented && CompactImages(style)
    ensures Aligned(EntryTexts(entries, style, depth) + post, depth + 1, false) == Aligned(post, depth + 1, false)
    decreases entries, 0
  {
    hide *;
    EntriesParts(entries, style, depth, post);
    var key, value := entries[0].key, entries[0].value;
    if |entries| == 1 {
      TextAligned(value, style, depth + 1, post);
      Comma(depth + 1, Text(value, style, depth + 1) + post);
      QuotedAligned(key, depth + 1, " : " + (Text(value, style, depth + 1) + post));
    } else {
      var rest := EntryTexts(entries[1..], style, depth) + post;
      var line := "\n" + Indent(depth + 1) + rest;
      QuotedAligned(key, depth + 1, " : " + (Text(value, style, depth + 1) + ("," + line)));
      Comma(depth + 1, Text(value, style, depth + 1) + ("," + line));
      TextAligned(value, style, depth + 1, "," + line);
      Comma(depth + 1, line);
      EntriesBegin(entries[1..], style, depth);
      NewLine(depth + 1, depth + 1, rest);
      StillOpen(EntryTexts(entries[1..], style, depth), post);
      EntriesAligned(entries[1..], style, depth, post);
    }
  }

  // Each line of a printed document stands where its depth says.
  lemma PrintAligned(v: Json, style: Style)
    requires style.indented && CompactImages(style)
    ensures Aligned(Text(v, style, 0), 0, false)
  {
    hide Text;
    TextAligned(v, style, 0, "");
    assert Text(v, style, 0) + "" == Text(v, style, 0);
  }
}
